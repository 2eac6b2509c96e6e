/**
 * ingest/chunker.py: pages are cut into blocks at blank lines, blocks are
 * grouped under the latest heading, and the sectioned texts are packed into
 * token-budgeted chunks that overlap by a suffix of whole texts.
 *
 * HEADING_RE is a parameter (`headingRe`: does the whole stripped line match
 * the pattern) and so is the SHA-1 hex digest (`digest`), which is only
 * known to produce 40 lower-case hex characters.
 */
module Chunker {
  import opened Text
  import opened Records
  import opened ParsePdf

  // ---------------------------------------------------------------------
  // Lines and headings
  // ---------------------------------------------------------------------

  /** is_heading: the length guard, then the pattern on the stripped line. */
  function IsHeading(line: string, headingRe: string -> bool): (b: bool)
    ensures b ==> 4 <= |Strip(line)| <= 140
    ensures b <==> 4 <= |Strip(line)| <= 140 && headingRe(Strip(line))
  {
    var l := Strip(line);
    if |l| < 4 || |l| > 140 then false else headingRe(l)
  }

  /** Blanks around a line never change whether it is a heading. */
  lemma IsHeadingStripped(line: string, headingRe: string -> bool)
    ensures IsHeading(Strip(line), headingRe) == IsHeading(line, headingRe)
  {
    StripIdempotent(line);
  }

  // ---------------------------------------------------------------------
  // split_into_blocks
  // ---------------------------------------------------------------------

  datatype Block = Block(page: nat, block: string)

  /** [b.strip() for b in parts if b.strip()] */
  function StrippedNonEmpty(parts: seq<string>): (r: seq<string>)
    ensures |r| <= |parts|
  {
    if parts == [] then []
    else
      var b := Strip(parts[0]);
      (if b != [] then [b] else []) + StrippedNonEmpty(parts[1..])
  }

  /** Every part kept is non-empty and already stripped. */
  lemma {:induction false} StrippedNonEmptyFacts(parts: seq<string>)
    ensures forall i :: 0 <= i < |StrippedNonEmpty(parts)| ==>
      StrippedNonEmpty(parts)[i] != [] && Strip(StrippedNonEmpty(parts)[i]) == StrippedNonEmpty(parts)[i]
  {
    if parts != [] {
      StripIdempotent(parts[0]);
      StrippedNonEmptyFacts(parts[1..]);
    }
  }

  /** The blocks of one page's stripped text, as the source's comprehension yields them. */
  function BlockParts(text: string): (parts: seq<string>)
  {
    StrippedNonEmpty(SplitOn(text, "\n\n"))
  }

  function Tag(page: nat, parts: seq<string>): (r: seq<Block>)
    ensures |r| == |parts|
    ensures forall i :: 0 <= i < |parts| ==> r[i] == Block(page, parts[i])
  {
    seq(|parts|, i requires 0 <= i < |parts| => Block(page, parts[i]))
  }

  lemma TagSnoc(page: nat, parts: seq<string>, j: nat)
    requires j < |parts|
    ensures Tag(page, parts[..j + 1]) == Tag(page, parts[..j]) + [Block(page, parts[j])]
  {
  }

  function PageBlocks(p: Page): seq<Block> {
    var text := Strip(p.text);
    if text == [] then [] else Tag(p.page, BlockParts(text))
  }

  /** The blocks split_into_blocks returns for a page list, page by page. */
  function Blocks(pages: seq<Page>): seq<Block> {
    if pages == [] then [] else Blocks(pages[..|pages| - 1]) + PageBlocks(pages[|pages| - 1])
  }

  lemma BlocksPrefix(pages: seq<Page>, i: nat)
    requires i < |pages|
    ensures Blocks(pages[..i + 1]) == Blocks(pages[..i]) + PageBlocks(pages[i])
  {
    assert pages[..i + 1][..i] == pages[..i];
  }

  /** for b in parts: blocks.append({"page": page, "block": b}) */
  method AppendBlocks(blocks: seq<Block>, page: nat, parts: seq<string>) returns (out: seq<Block>)
    ensures out == blocks + Tag(page, parts)
  {
    out := blocks;
    for j := 0 to |parts|
      invariant out == blocks + Tag(page, parts[..j])
    {
      TagSnoc(page, parts, j);
      out := out + [Block(page, parts[j])];
    }
    assert parts[..|parts|] == parts;
  }

  /** split_into_blocks (ingest/chunker.py:31-41). */
  method SplitIntoBlocks(pages: seq<Page>) returns (blocks: seq<Block>)
    ensures blocks == Blocks(pages)
  {
    blocks := [];
    for i := 0 to |pages|
      invariant blocks == Blocks(pages[..i])
    {
      BlocksPrefix(pages, i);
      var p := pages[i];
      var text := Strip(p.text);
      if text == [] {
        continue;
      }
      var parts := BlockParts(text);
      blocks := AppendBlocks(blocks, p.page, parts);
    }
    assert pages[..|pages|] == pages;
  }

  lemma PageBlocksFacts(p: Page)
    ensures forall b :: b in PageBlocks(p) ==> b.page == p.page && b.block != [] && Strip(b.block) == b.block
  {
    var text := Strip(p.text);
    if text != [] {
      StrippedNonEmptyFacts(SplitOn(text, "\n\n"));
    }
  }

  /**
   * Every block is non-empty and already stripped, and carries the number
   * of a page it came from.
   */
  lemma {:induction false} BlocksWellFormed(pages: seq<Page>)
    ensures forall b :: b in Blocks(pages) ==>
      && b.block != []
      && Strip(b.block) == b.block
      && exists i :: 0 <= i < |pages| && pages[i].page == b.page
  {
    if pages != [] {
      var init := pages[..|pages| - 1];
      var last := pages[|pages| - 1];
      BlocksWellFormed(init);
      PageBlocksFacts(last);
      forall b | b in Blocks(pages)
        ensures b.block != [] && Strip(b.block) == b.block
        ensures exists i :: 0 <= i < |pages| && pages[i].page == b.page
      {
        if b in Blocks(init) {
          var i :| 0 <= i < |init| && init[i].page == b.page;
          assert pages[i] == init[i];
        } else {
          assert b in PageBlocks(last);
          assert pages[|pages| - 1].page == b.page;
        }
      }
    }
  }

  /** A page whose text is blank contributes no block. */
  lemma BlankPageNoBlocks(pages: seq<Page>, p: Page)
    requires IsBlank(p.text)
    ensures Blocks(pages + [p]) == Blocks(pages)
  {
    StripEmptyIffBlank(p.text);
    assert (pages + [p])[..|pages|] == pages;
  }

  // ---------------------------------------------------------------------
  // build_sections
  // ---------------------------------------------------------------------

  datatype Sectioned = Sectioned(page: nat, section: string, text: string)

  const Unspecified: string := "UNSPECIFIED"

  /** [normalize_line(x) for x in lines if x.strip()] */
  function NormalizedLines(lines: seq<string>): (r: seq<string>)
    ensures |r| <= |lines|
    ensures forall i :: 0 <= i < |r| ==> r[i] != [] && SingleSpaced(r[i])
  {
    if lines == [] then []
    else
      StripEmptyIffBlank(lines[0]);
      (if Strip(lines[0]) != [] then [Normalize(lines[0])] else []) + NormalizedLines(lines[1..])
  }

  function BlockLines(block: string): seq<string> {
    NormalizedLines(SplitOn(block, "\n"))
  }

  /** Whether a block opens a new section: its first normalised line is a heading. */
  predicate OpensSection(b: Block, headingRe: string -> bool) {
    var lines := BlockLines(b.block);
    lines != [] && IsHeading(lines[0], headingRe)
  }

  /** The section name in force after block b. */
  function NextSection(b: Block, current: string, headingRe: string -> bool): string {
    if OpensSection(b, headingRe) then BlockLines(b.block)[0] else current
  }

  /** The record(s) build_sections emits for one block: none, or one. */
  function Emitted(b: Block, current: string, headingRe: string -> bool): (r: seq<Sectioned>)
    ensures |r| <= 1
    ensures |r| == 1 ==> r[0].section == NextSection(b, current, headingRe)
  {
    var lines := BlockLines(b.block);
    if OpensSection(b, headingRe) then
      var content := Strip(Join("\n", lines[1..]));
      if content != [] then [Sectioned(b.page, lines[0], content)] else []
    else
      [Sectioned(b.page, current, Strip(Join("\n", lines)))]
  }

  /**
   * The records build_sections emits for `blocks`, starting with `current`
   * as the running section name.
   */
  function Sections(blocks: seq<Block>, current: string, headingRe: string -> bool): seq<Sectioned>
    decreases |blocks|
  {
    if blocks == [] then []
    else
      Emitted(blocks[0], current, headingRe)
        + Sections(blocks[1..], NextSection(blocks[0], current, headingRe), headingRe)
  }

  lemma ConcatAssoc<T>(a: seq<T>, b: seq<T>, c: seq<T>)
    ensures (a + b) + c == a + (b + c)
  {
  }

  lemma SectionsUnfold(blocks: seq<Block>, i: nat, current: string, headingRe: string -> bool)
    requires i < |blocks|
    ensures Sections(blocks[i..], current, headingRe)
      == Emitted(blocks[i], current, headingRe)
         + Sections(blocks[i + 1..], NextSection(blocks[i], current, headingRe), headingRe)
  {
    assert blocks[i..][1..] == blocks[i + 1..];
  }

  /** The body of build_sections' loop for one block (ingest/chunker.py:47-54). */
  method SectionBlock(b: Block, current: string, headingRe: string -> bool)
    returns (emitted: seq<Sectioned>, next: string)
    ensures emitted == Emitted(b, current, headingRe)
    ensures next == NextSection(b, current, headingRe)
  {
    next := current;
    emitted := [];
    var lines := BlockLines(b.block);
    if lines != [] && IsHeading(lines[0], headingRe) {
      next := lines[0];
      var content := Strip(Join("\n", lines[1..]));
      if content != [] {
        emitted := [Sectioned(b.page, next, content)];
      }
    } else {
      emitted := [Sectioned(b.page, next, Strip(Join("\n", lines)))];
    }
  }

  /** build_sections (ingest/chunker.py:43-55). */
  method BuildSections(blocks: seq<Block>, headingRe: string -> bool) returns (sectioned: seq<Sectioned>)
    ensures sectioned == Sections(blocks, Unspecified, headingRe)
  {
    var current := Unspecified;
    sectioned := [];
    assert blocks[0..] == blocks;
    for i := 0 to |blocks|
      invariant sectioned + Sections(blocks[i..], current, headingRe) == Sections(blocks, Unspecified, headingRe)
    {
      SectionsUnfold(blocks, i, current, headingRe);
      var emitted, next := SectionBlock(blocks[i], current, headingRe);
      ConcatAssoc(sectioned, emitted, Sections(blocks[i + 1..], next, headingRe));
      sectioned := sectioned + emitted;
      current := next;
    }
  }

  /**
   * At most one record per block, and every record is labelled with the
   * starting section name or with a line that is a heading.
   */
  lemma {:induction false} SectionsLabels(blocks: seq<Block>, current: string, headingRe: string -> bool)
    ensures |Sections(blocks, current, headingRe)| <= |blocks|
    ensures forall r :: r in Sections(blocks, current, headingRe) ==>
      r.section == current || IsHeading(r.section, headingRe)
    decreases |blocks|
  {
    if blocks != [] {
      var next := NextSection(blocks[0], current, headingRe);
      SectionsLabels(blocks[1..], next, headingRe);
      assert next == current || IsHeading(next, headingRe);
    }
  }

  /** A block that opens a section renames every later record until the next heading. */
  lemma HeadingBlockSetsSection(blocks: seq<Block>, current: string, headingRe: string -> bool)
    requires blocks != [] && OpensSection(blocks[0], headingRe)
    ensures Sections(blocks, current, headingRe)
      == Sections(blocks, BlockLines(blocks[0].block)[0], headingRe)
  {
  }

  // ---------------------------------------------------------------------
  // token_count_rough: the number of maximal runs of \w
  // ---------------------------------------------------------------------

  /** The length of the run of word characters s starts with. */
  function WordRunLen(s: string): (n: nat)
    ensures n <= |s|
    ensures forall i :: 0 <= i < n ==> IsWordChar(s[i])
    ensures n < |s| ==> !IsWordChar(s[n])
  {
    if s != [] && IsWordChar(s[0]) then 1 + WordRunLen(s[1..]) else 0
  }

  /** len(re.findall(r"\w+", s)) */
  function TokenCount(s: string): (n: nat)
    ensures n <= |s|
    decreases |s|
  {
    if s == [] then 0
    else if IsWordChar(s[0]) then 1 + TokenCount(s[WordRunLen(s)..])
    else TokenCount(s[1..])
  }

  lemma {:induction false} TokenCountNone(s: string)
    requires forall i :: 0 <= i < |s| ==> !IsWordChar(s[i])
    ensures TokenCount(s) == 0
  {
    if s != [] {
      TokenCountNone(s[1..]);
    }
  }

  /** The word run of a + b is that of a when a has a non-word character. */
  lemma WordRunLenConcat(a: string, b: string)
    requires WordRunLen(a) < |a|
    ensures WordRunLen(a + b) == WordRunLen(a)
  {
    var n := WordRunLen(a);
    assert (a + b)[n] == a[n];
    assert forall i :: 0 <= i < n ==> (a + b)[i] == a[i];
  }

  /** A word run ending a and one starting b would merge; otherwise counts add. */
  lemma {:induction false} TokenCountConcat(a: string, b: string)
    requires a == [] || b == [] || !IsWordChar(a[|a| - 1]) || !IsWordChar(b[0])
    ensures TokenCount(a + b) == TokenCount(a) + TokenCount(b)
    decreases |a|
  {
    if a == [] {
      assert a + b == b;
    } else if !IsWordChar(a[0]) {
      assert (a + b)[1..] == a[1..] + b;
      TokenCountConcat(a[1..], b);
    } else {
      var n := WordRunLen(a);
      if n < |a| {
        WordRunLenConcat(a, b);
        assert (a + b)[n..] == a[n..] + b;
        TokenCountConcat(a[n..], b);
      } else {
        assert forall i :: 0 <= i < n ==> (a + b)[i] == a[i];
        assert WordRunLen(a + b) == n;
        assert (a + b)[n..] == b;
        assert a[n..] == [];
      }
    }
  }

  lemma TokenCountSpacePrefix(p: string, t: string)
    requires IsBlank(p)
    ensures TokenCount(p + t) == TokenCount(t)
  {
    TokenCountNone(p);
    TokenCountConcat(p, t);
  }

  lemma TokenCountSpaceSuffix(t: string, q: string)
    requires IsBlank(q)
    ensures TokenCount(t + q) == TokenCount(t)
  {
    TokenCountNone(q);
    TokenCountConcat(t, q);
  }

  /** Stripping whitespace never changes the token count. */
  lemma TokenCountStrip(s: string)
    ensures TokenCount(Strip(s)) == TokenCount(s)
  {
    var l := LStrip(s);
    var p := s[..|s| - |l|];
    assert s == p + l;
    TokenCountSpacePrefix(p, l);
    var t := RStrip(l);
    var q := l[|t|..];
    assert l == t + q;
    TokenCountSpaceSuffix(t, q);
  }

  // ---------------------------------------------------------------------
  // make_chunk_id
  // ---------------------------------------------------------------------

  predicate IsHexLower(c: char) { IsDigit(c) || 'a' <= c <= 'f' }

  /** What hashlib.sha1(...).hexdigest() returns: 40 lower-case hex digits. */
  type Sha1Hex = s: string | |s| == 40 && forall i :: 0 <= i < |s| ==> IsHexLower(s[i])
    witness "0000000000000000000000000000000000000000"

  /** The index of the first alphanumeric character (or |s|). */
  function NonAlnumRun(s: string): (n: nat)
    ensures n <= |s|
    ensures n < |s| ==> IsAlnum(s[n])
  {
    if s != [] && !IsAlnum(s[0]) then 1 + NonAlnumRun(s[1..]) else 0
  }

  /** re.sub(r"[^A-Za-z0-9]+", "_", s) */
  function SafeName(s: string): (r: string)
    ensures |r| <= |s|
    ensures forall i :: 0 <= i < |r| ==> IsAlnum(r[i]) || r[i] == '_'
    decreases |s|
  {
    if s == [] then []
    else if IsAlnum(s[0]) then [s[0]] + SafeName(s[1..])
    else "_" + SafeName(s[NonAlnumRun(s)..])
  }

  /** A name made only of letters and digits is kept as it is. */
  lemma {:induction false} SafeNameAlnum(s: string)
    requires forall i :: 0 <= i < |s| ==> IsAlnum(s[i])
    ensures SafeName(s) == s
  {
    if s != [] {
      SafeNameAlnum(s[1..]);
      assert s == [s[0]] + s[1..];
    }
  }

  /** The digest's input: f"{doc}|p{ps}-{pe}|{section}|{idx}|{text[:200]}". */
  function DigestBase(docName: string, pageStart: nat, pageEnd: nat, section: string, chunkIndex: nat, text: string): string {
    docName + "|p" + ShowNat(pageStart) + "-" + ShowNat(pageEnd) + "|" + section + "|"
      + ShowNat(chunkIndex) + "|" + Take(text, 200)
  }

  /** make_chunk_id (ingest/chunker.py:60-64). */
  function MakeChunkId(docName: string, pageStart: nat, pageEnd: nat, section: string, chunkIndex: nat,
                       text: string, digest: string -> Sha1Hex): string
  {
    var h := digest(DigestBase(docName, pageStart, pageEnd, section, chunkIndex, text))[..12];
    Take(SafeName(docName), 40) + "_p" + ShowPadded(pageStart, 4) + "_p" + ShowPadded(pageEnd, 4)
      + "_c" + ShowPadded(chunkIndex, 3) + "_" + h
  }

  predicate AllWordChars(s: string) {
    forall i :: 0 <= i < |s| ==> IsWordChar(s[i])
  }

  lemma AllWordCharsConcat(a: string, b: string)
    requires AllWordChars(a) && AllWordChars(b)
    ensures AllWordChars(a + b)
  {
    assert forall i :: |a| <= i < |a + b| ==> (a + b)[i] == b[i - |a|];
  }

  lemma DigitsAreWordChars(s: string)
    requires forall i :: 0 <= i < |s| ==> IsDigit(s[i])
    ensures AllWordChars(s)
  {
  }

  /**
   * A chunk id uses only [A-Za-z0-9_]: it starts with the sanitised document
   * name (at most 40 characters) and ends with the first 12 hex digits of
   * the digest.
   */
  lemma ChunkIdShape(docName: string, pageStart: nat, pageEnd: nat, section: string, chunkIndex: nat,
                     text: string, digest: string -> Sha1Hex)
    ensures var id := MakeChunkId(docName, pageStart, pageEnd, section, chunkIndex, text, digest);
      && AllWordChars(id)
      && |id| >= 30
      && StartsWith(id, Take(SafeName(docName), 40)) && |Take(SafeName(docName), 40)| <= 40
      && id[|id| - 12..] == digest(DigestBase(docName, pageStart, pageEnd, section, chunkIndex, text))[..12]
  {
    var full := digest(DigestBase(docName, pageStart, pageEnd, section, chunkIndex, text));
    var h := full[..12];
    assert AllWordChars(h) by {
      forall i | 0 <= i < |h| ensures IsWordChar(h[i]) {
        assert h[i] == full[i];
        assert IsHexLower(full[i]);
      }
    }
    var name := SafeName(docName);
    var safe := Take(name, 40);
    assert AllWordChars(safe) by {
      forall i | 0 <= i < |safe| ensures IsWordChar(safe[i]) {
        assert safe[i] == name[i];
      }
    }
    var ps := ShowPadded(pageStart, 4);
    var pe := ShowPadded(pageEnd, 4);
    var ci := ShowPadded(chunkIndex, 3);
    DigitsAreWordChars(ps);
    DigitsAreWordChars(pe);
    DigitsAreWordChars(ci);
    var p1 := safe + "_p";
    AllWordCharsConcat(safe, "_p");
    var p2 := p1 + ps;
    AllWordCharsConcat(p1, ps);
    var p3 := p2 + "_p";
    AllWordCharsConcat(p2, "_p");
    var p4 := p3 + pe;
    AllWordCharsConcat(p3, pe);
    var p5 := p4 + "_c";
    AllWordCharsConcat(p4, "_c");
    var p6 := p5 + ci;
    AllWordCharsConcat(p5, ci);
    var p7 := p6 + "_";
    AllWordCharsConcat(p6, "_");
    var id := p7 + h;
    AllWordCharsConcat(p7, h);
    assert id == MakeChunkId(docName, pageStart, pageEnd, section, chunkIndex, text, digest);
    assert id[..|safe|] == safe;
    assert id[|id| - 12..] == h;
  }

  // ---------------------------------------------------------------------
  // chunk_document and its flush
  // ---------------------------------------------------------------------

  /** One buffered text with the page it came from. */
  datatype Piece = Piece(page: nat, text: string)

  const DefaultTargetTokens: nat := 520
  const DefaultOverlapTokens: nat := 90

  /** sum(token_count_rough(t) for _, t in buf) */
  function SumTokens(buf: seq<Piece>): nat {
    if buf == [] then 0 else TokenCount(buf[0].text) + SumTokens(buf[1..])
  }

  lemma {:induction false} SumTokensSnoc(buf: seq<Piece>, p: Piece)
    ensures SumTokens(buf + [p]) == SumTokens(buf) + TokenCount(p.text)
  {
    if buf == [] {
      assert buf + [p] == [p];
    } else {
      assert (buf + [p])[1..] == buf[1..] + [p];
      SumTokensSnoc(buf[1..], p);
    }
  }

  function Texts(buf: seq<Piece>): (ts: seq<string>)
    ensures |ts| == |buf|
    ensures forall i :: 0 <= i < |buf| ==> ts[i] == buf[i].text
  {
    seq(|buf|, i requires 0 <= i < |buf| => buf[i].text)
  }

  /** Joining texts with newlines neither creates nor merges tokens. */
  lemma {:induction false} TokenCountJoin(buf: seq<Piece>)
    ensures TokenCount(Join("\n", Texts(buf))) == SumTokens(buf)
  {
    if |buf| == 1 {
      assert SumTokens(buf[1..]) == 0;
    } else if |buf| > 1 {
      var rest := Join("\n", Texts(buf[1..]));
      assert Texts(buf)[1..] == Texts(buf[1..]);
      assert Join("\n", Texts(buf)) == buf[0].text + ("\n" + rest);
      TokenCountJoin(buf[1..]);
      TokenCountConcat("\n", rest);
      TokenCountConcat(buf[0].text, "\n" + rest);
    }
  }

  function MinPage(buf: seq<Piece>): (m: nat)
    requires buf != []
    ensures forall i :: 0 <= i < |buf| ==> m <= buf[i].page
    ensures exists i :: 0 <= i < |buf| && m == buf[i].page
  {
    if |buf| == 1 then buf[0].page
    else
      var m := MinPage(buf[1..]);
      assert forall i :: 1 <= i < |buf| ==> buf[1..][i - 1] == buf[i];
      if buf[0].page <= m then buf[0].page else m
  }

  function MaxPage(buf: seq<Piece>): (m: nat)
    requires buf != []
    ensures forall i :: 0 <= i < |buf| ==> buf[i].page <= m
    ensures exists i :: 0 <= i < |buf| && m == buf[i].page
  {
    if |buf| == 1 then buf[0].page
    else
      var m := MaxPage(buf[1..]);
      assert forall i :: 1 <= i < |buf| ==> buf[1..][i - 1] == buf[i];
      if buf[0].page >= m then buf[0].page else m
  }

  /**
   * What the k-th chunk of a document looks like: its id is built with
   * chunk index k, its page range is ordered, and tokens_rough counts its
   * own text.
   */
  ghost predicate WellFormed(c: Chunk, k: nat, docName: string, digest: string -> Sha1Hex) {
    && c.chunkId == MakeChunkId(docName, c.pageStart, c.pageEnd, c.section, k, c.text, digest)
    && c.docName == Some(docName)
    && c.pageStart <= c.pageEnd
    && c.tokensRough == TokenCount(c.text)
  }

  lemma WellFormedSnoc(cs: seq<Chunk>, c: Chunk, docName: string, digest: string -> Sha1Hex)
    requires forall k :: 0 <= k < |cs| ==> WellFormed(cs[k], k, docName, digest)
    requires WellFormed(c, |cs|, docName, digest)
    ensures forall k :: 0 <= k < |cs| + 1 ==> WellFormed((cs + [c])[k], k, docName, digest)
  {
    forall k | 0 <= k < |cs| + 1 ensures WellFormed((cs + [c])[k], k, docName, digest) {
      if k < |cs| { assert (cs + [c])[k] == cs[k]; }
    }
  }

  /** The chunk record flush builds from a non-empty buffer (ingest/chunker.py:81-94). */
  function ChunkOf(docName: string, buf: seq<Piece>, section: string, index: nat,
                   digest: string -> Sha1Hex): Chunk
    requires buf != []
  {
    var ps := MinPage(buf);
    var pe := MaxPage(buf);
    var text := Strip(Join("\n", Texts(buf)));
    Chunk(MakeChunkId(docName, ps, pe, section, index, text, digest), Some(docName), ps, pe, section, text,
      TokenCount(text))
  }

  /**
   * The flushed chunk is well formed with its index, spans exactly the
   * buffered pages, and its tokens_rough equals the buffer's token total.
   */
  lemma ChunkOfFacts(docName: string, buf: seq<Piece>, section: string, index: nat, digest: string -> Sha1Hex)
    requires buf != []
    ensures WellFormed(ChunkOf(docName, buf, section, index, digest), index, docName, digest)
    ensures forall i :: 0 <= i < |buf| ==>
      ChunkOf(docName, buf, section, index, digest).pageStart <= buf[i].page
        <= ChunkOf(docName, buf, section, index, digest).pageEnd
    ensures ChunkOf(docName, buf, section, index, digest).tokensRough == SumTokens(buf)
    ensures ChunkOf(docName, buf, section, index, digest).section == section
  {
    TokenCountStrip(Join("\n", Texts(buf)));
    TokenCountJoin(buf);
  }

  /** The token total of buf[j..]. */
  function SuffixTokens(buf: seq<Piece>, j: nat): nat
    requires j <= |buf|
  {
    SumTokens(buf[j..])
  }

  /**
   * Where the kept overlap starts when the backward scan has reached index i:
   * the scan stops at the first (from the end) suffix whose token sum reaches
   * the overlap, or at the start of the buffer.
   */
  function KeepStart(buf: seq<Piece>, overlap: nat, i: nat): (r: nat)
    requires i < |buf|
    ensures r <= i
    ensures SuffixTokens(buf, r) >= overlap || r == 0
    ensures forall j :: r < j <= i ==> SuffixTokens(buf, j) < overlap
    decreases i
  {
    if SuffixTokens(buf, i) >= overlap || i == 0 then i
    else
      var r := KeepStart(buf, overlap, i - 1);
      assert SuffixTokens(buf, i) < overlap;
      r
  }

  /** The buffer flush leaves behind: nothing without overlap, else a suffix. */
  function Overlap(buf: seq<Piece>, overlap: nat): (kept: seq<Piece>)
  {
    if overlap == 0 || buf == [] then [] else buf[KeepStart(buf, overlap, |buf| - 1)..]
  }

  /**
   * The kept buffer is the shortest non-empty suffix whose token sum reaches
   * the overlap, or the whole buffer when no suffix does; it is empty when
   * the overlap is 0.
   */
  lemma OverlapShortestSuffix(buf: seq<Piece>, overlap: nat)
    ensures overlap == 0 ==> Overlap(buf, overlap) == []
    ensures overlap > 0 && buf != [] ==>
      && 0 < |Overlap(buf, overlap)| <= |buf|
      && Overlap(buf, overlap) == buf[|buf| - |Overlap(buf, overlap)|..]
      && (SumTokens(Overlap(buf, overlap)) >= overlap || Overlap(buf, overlap) == buf)
      && forall j :: |buf| - |Overlap(buf, overlap)| < j < |buf| ==> SuffixTokens(buf, j) < overlap
  {
  }

  /**
   * The overlap step of flush (ingest/chunker.py:98-107): walk the buffer
   * backwards, keeping texts until their token sum reaches the overlap.
   * `kept` is held in buffer order; the source appends while walking
   * backwards and reverses at the end.
   */
  method KeepOverlap(buf: seq<Piece>, overlap: nat) returns (kept: seq<Piece>, keptTokens: nat)
    requires overlap > 0 && buf != []
    ensures kept == Overlap(buf, overlap)
    ensures keptTokens == SumTokens(kept)
  {
    kept := [];
    keptTokens := 0;
    var i := |buf|;
    while i > 0
      invariant 0 <= i <= |buf|
      invariant kept == buf[i..]
      invariant keptTokens == SumTokens(kept)
      invariant forall j :: i <= j < |buf| ==> SuffixTokens(buf, j) < overlap
      decreases i
    {
      i := i - 1;
      assert buf[i..] == [buf[i]] + buf[i + 1..];
      kept := [buf[i]] + kept;
      keptTokens := keptTokens + TokenCount(buf[i].text);
      if keptTokens >= overlap {
        break;
      }
    }
    assert keptTokens == SuffixTokens(buf, i);
    assert i == KeepStart(buf, overlap, |buf| - 1);
  }

  /**
   * The part of chunk_document's state that flush and the loop change, as a
   * value: the buffer, the chunks so far and the current section (the token
   * total and the chunk counter are SumTokens(buffer) and |chunks|).
   */
  datatype Acc = Acc(buffer: seq<Piece>, chunks: seq<Chunk>, section: string)

  /** What flush does (ingest/chunker.py:77-110). */
  function FlushAcc(docName: string, overlap: nat, digest: string -> Sha1Hex, a: Acc): Acc {
    if a.buffer == [] then a
    else Acc(Overlap(a.buffer, overlap),
             a.chunks + [ChunkOf(docName, a.buffer, a.section, |a.chunks|, digest)], a.section)
  }

  /** A record of another section flushes and opens that section (ingest/chunker.py:117-119). */
  function OpenSection(docName: string, overlap: nat, digest: string -> Sha1Hex, a: Acc, section: string): Acc {
    if section != a.section then FlushAcc(docName, overlap, digest, a).(section := section) else a
  }

  /** A record that would overflow a non-empty buffer flushes first (ingest/chunker.py:121-123). */
  function MakeRoom(docName: string, overlap: nat, digest: string -> Sha1Hex, target: nat, a: Acc, tks: nat): Acc {
    if SumTokens(a.buffer) + tks > target && a.buffer != [] then FlushAcc(docName, overlap, digest, a) else a
  }

  /** A buffer that has reached the target flushes (ingest/chunker.py:128-129). */
  function FlushIfFull(docName: string, overlap: nat, digest: string -> Sha1Hex, target: nat, a: Acc): Acc {
    if SumTokens(a.buffer) >= target then FlushAcc(docName, overlap, digest, a) else a
  }

  /** One pass of chunk_document's loop over a sectioned record (ingest/chunker.py:112-129). */
  function AddAcc(docName: string, overlap: nat, digest: string -> Sha1Hex, target: nat,
                  a: Acc, item: Sectioned): Acc {
    if item.text == [] then a
    else
      var a1 := OpenSection(docName, overlap, digest, a, item.section);
      var a2 := MakeRoom(docName, overlap, digest, target, a1, TokenCount(item.text));
      FlushIfFull(docName, overlap, digest, target, a2.(buffer := a2.buffer + [Piece(item.page, item.text)]))
  }

  /** The state after the loop has seen the records `items`. */
  function Chunked(docName: string, overlap: nat, digest: string -> Sha1Hex, target: nat,
                   items: seq<Sectioned>): Acc
    decreases |items|
  {
    if items == [] then Acc([], [], Unspecified)
    else AddAcc(docName, overlap, digest, target,
                Chunked(docName, overlap, digest, target, items[..|items| - 1]), items[|items| - 1])
  }

  /** The chunks chunk_document returns: the loop's chunks after the final flush. */
  function ChunksOf(doc: Doc, target: nat, overlap: nat, headingRe: string -> bool,
                    digest: string -> Sha1Hex): seq<Chunk> {
    var items := Sections(Blocks(doc.pages), Unspecified, headingRe);
    FlushAcc(doc.docName, overlap, digest, Chunked(doc.docName, overlap, digest, target, items)).chunks
  }

  /** Every chunk of the state is well formed with its position as chunk index. */
  ghost predicate AccChunksWellFormed(a: Acc, docName: string, digest: string -> Sha1Hex) {
    forall k :: 0 <= k < |a.chunks| ==> WellFormed(a.chunks[k], k, docName, digest)
  }

  /** flush keeps the earlier chunks and adds at most one, well formed with the next index. */
  lemma FlushAccFacts(docName: string, overlap: nat, digest: string -> Sha1Hex, a: Acc)
    requires AccChunksWellFormed(a, docName, digest)
    ensures AccChunksWellFormed(FlushAcc(docName, overlap, digest, a), docName, digest)
    ensures FlushAcc(docName, overlap, digest, a).section == a.section
    ensures |a.chunks| <= |FlushAcc(docName, overlap, digest, a).chunks| <= |a.chunks| + 1
    ensures a.chunks <= FlushAcc(docName, overlap, digest, a).chunks
    ensures forall k :: |a.chunks| <= k < |FlushAcc(docName, overlap, digest, a).chunks| ==>
      FlushAcc(docName, overlap, digest, a).chunks[k].section == a.section
  {
    if a.buffer != [] {
      ChunkOfFacts(docName, a.buffer, a.section, |a.chunks|, digest);
      WellFormedSnoc(a.chunks, ChunkOf(docName, a.buffer, a.section, |a.chunks|, digest), docName, digest);
    }
  }

  /**
   * One pass keeps the chunks emitted so far unchanged and well formed,
   * files the chunks it adds under the old current section or the record's
   * own, and leaves the current section one of those two.
   */
  lemma AddAccFacts(docName: string, overlap: nat, digest: string -> Sha1Hex, target: nat,
                    a: Acc, item: Sectioned)
    requires AccChunksWellFormed(a, docName, digest)
    ensures AccChunksWellFormed(AddAcc(docName, overlap, digest, target, a, item), docName, digest)
    ensures a.chunks <= AddAcc(docName, overlap, digest, target, a, item).chunks
    ensures SectionFrom(AddAcc(docName, overlap, digest, target, a, item).section, a.section, item)
    ensures forall k :: |a.chunks| <= k < |AddAcc(docName, overlap, digest, target, a, item).chunks| ==>
      SectionFrom(AddAcc(docName, overlap, digest, target, a, item).chunks[k].section, a.section, item)
  {
    if item.text != [] {
      var a1 := OpenSection(docName, overlap, digest, a, item.section);
      FlushAccFacts(docName, overlap, digest, a);
      assert a.chunks <= a1.chunks;
      var a2 := MakeRoom(docName, overlap, digest, target, a1, TokenCount(item.text));
      FlushAccFacts(docName, overlap, digest, a1);
      var a3 := a2.(buffer := a2.buffer + [Piece(item.page, item.text)]);
      FlushAccFacts(docName, overlap, digest, a3);
      var b := FlushIfFull(docName, overlap, digest, target, a3);
      assert a.chunks <= a1.chunks <= a2.chunks <= b.chunks;
      forall k | |a.chunks| <= k < |b.chunks| ensures SectionFrom(b.chunks[k].section, a.section, item) {
        if k < |a1.chunks| {
          assert b.chunks[k] == a1.chunks[k];
        } else if k < |a2.chunks| {
          assert b.chunks[k] == a2.chunks[k];
        }
      }
    }
  }

  /** A section one pass over `item` may file under, given the old current section. */
  predicate SectionFrom(s: string, current: string, item: Sectioned) {
    s == current || (item.text != [] && s == item.section)
  }

  /**
   * Chunks are emitted once and never revised: the chunks after a prefix of
   * the records are a prefix of the chunks after all of them, and every
   * chunk is well formed with its position as chunk index.
   */
  lemma {:induction false} ChunkedGrows(docName: string, overlap: nat, digest: string -> Sha1Hex,
                                        target: nat, items: seq<Sectioned>, n: nat)
    requires n <= |items|
    ensures AccChunksWellFormed(Chunked(docName, overlap, digest, target, items), docName, digest)
    ensures Chunked(docName, overlap, digest, target, items[..n]).chunks
      <= Chunked(docName, overlap, digest, target, items).chunks
    decreases |items|
  {
    if items != [] {
      var init := items[..|items| - 1];
      if n == |items| {
        assert items[..n] == items;
        ChunkedGrows(docName, overlap, digest, target, init, |init|);
      } else {
        assert items[..n] == init[..n];
        ChunkedGrows(docName, overlap, digest, target, init, n);
      }
      AddAccFacts(docName, overlap, digest, target, Chunked(docName, overlap, digest, target, init),
                  items[|items| - 1]);
    } else {
      assert items[..n] == items;
    }
  }

  /** `s` is UNSPECIFIED or the section of one of the non-empty records in `items`. */
  ghost predicate SeenSection(s: string, items: seq<Sectioned>) {
    s == Unspecified || exists i :: 0 <= i < |items| && items[i].text != [] && items[i].section == s
  }

  lemma SeenSectionSnoc(s: string, items: seq<Sectioned>, item: Sectioned)
    requires SeenSection(s, items) || (item.text != [] && s == item.section)
    ensures SeenSection(s, items + [item])
  {
    if s != Unspecified {
      if exists i :: 0 <= i < |items| && items[i].text != [] && items[i].section == s {
        var i :| 0 <= i < |items| && items[i].text != [] && items[i].section == s;
        assert (items + [item])[i] == items[i];
      } else {
        assert (items + [item])[|items|] == item;
      }
    }
  }

  /**
   * The section a chunk is filed under is UNSPECIFIED or the section of one
   * of the non-empty records seen so far, and so is the current section.
   */
  lemma {:induction false} ChunkedSections(docName: string, overlap: nat, digest: string -> Sha1Hex,
                                           target: nat, items: seq<Sectioned>)
    ensures SeenSection(Chunked(docName, overlap, digest, target, items).section, items)
    ensures forall k :: 0 <= k < |Chunked(docName, overlap, digest, target, items).chunks| ==>
      SeenSection(Chunked(docName, overlap, digest, target, items).chunks[k].section, items)
    decreases |items|
  {
    if items != [] {
      var init := items[..|items| - 1];
      var item := items[|items| - 1];
      assert items == init + [item];
      ChunkedSections(docName, overlap, digest, target, init);
      var a := Chunked(docName, overlap, digest, target, init);
      var b := Chunked(docName, overlap, digest, target, items);
      ChunkedGrows(docName, overlap, digest, target, init, |init|);
      AddAccFacts(docName, overlap, digest, target, a, item);
      SeenSectionSnoc(b.section, init, item);
      forall k | 0 <= k < |b.chunks| ensures SeenSection(b.chunks[k].section, items) {
        if k < |a.chunks| {
          assert b.chunks[k] == a.chunks[k];
        }
        SeenSectionSnoc(b.chunks[k].section, init, item);
      }
    }
  }

  /**
   * The state flush shares with chunk_document through `nonlocal`: the
   * buffer, its token total, the chunk counter, the chunks so far and the
   * current section.
   */
  class ChunkState {
    const docName: string
    const overlapTokens: nat
    const digest: string -> Sha1Hex
    var buffer: seq<Piece>
    var bufferTokens: nat
    var chunkIndex: nat
    var chunks: seq<Chunk>
    var currentSection: string

    ghost predicate Valid()
      reads this
    {
      && bufferTokens == SumTokens(buffer)
      && chunkIndex == |chunks|
      && forall k :: 0 <= k < |chunks| ==> WellFormed(chunks[k], k, docName, digest)
    }

    /** The state as a value. */
    ghost function State(): Acc
      reads this
    {
      Acc(buffer, chunks, currentSection)
    }

    constructor(docName: string, overlapTokens: nat, digest: string -> Sha1Hex)
      ensures Valid()
      ensures this.docName == docName && this.overlapTokens == overlapTokens && this.digest == digest
      ensures buffer == [] && chunks == [] && currentSection == Unspecified
    {
      this.docName := docName;
      this.overlapTokens := overlapTokens;
      this.digest := digest;
      buffer := [];
      bufferTokens := 0;
      chunkIndex := 0;
      chunks := [];
      currentSection := Unspecified;
    }

    /** flush (ingest/chunker.py:77-110). */
    method Flush()
      requires Valid()
      modifies this
      ensures Valid()
      ensures State() == FlushAcc(docName, overlapTokens, digest, old(State()))
    {
      if buffer == [] {
        return;
      }
      var c := ChunkOf(docName, buffer, currentSection, chunkIndex, digest);
      ChunkOfFacts(docName, buffer, currentSection, chunkIndex, digest);
      WellFormedSnoc(chunks, c, docName, digest);
      chunks := chunks + [c];
      chunkIndex := chunkIndex + 1;

      ghost var full := buffer;
      assert full == old(buffer);
      if overlapTokens > 0 {
        var kept, keptTokens := KeepOverlap(buffer, overlapTokens);
        assert kept == Overlap(full, overlapTokens);
        buffer, bufferTokens := kept, keptTokens;
      } else {
        buffer := [];
        bufferTokens := 0;
        assert buffer == Overlap(full, overlapTokens);
      }
    }

    /** One pass of chunk_document's loop over the sectioned records (ingest/chunker.py:112-129). */
    method Add(item: Sectioned, targetTokens: nat)
      requires Valid()
      modifies this
      ensures Valid()
      ensures State() == AddAcc(docName, overlapTokens, digest, targetTokens, old(State()), item)
    {
      var txt := item.text;
      if txt == [] {
        return;
      }
      ghost var a0 := State();
      if item.section != currentSection {
        Flush();
        currentSection := item.section;
      }
      ghost var a1 := State();
      assert a1 == OpenSection(docName, overlapTokens, digest, a0, item.section);
      var tks := TokenCount(txt);
      if bufferTokens + tks > targetTokens && buffer != [] {
        Flush();
      }
      ghost var a2 := State();
      assert a2 == MakeRoom(docName, overlapTokens, digest, targetTokens, a1, tks);
      Push(item.page, txt);
      ghost var a3 := State();
      assert a3 == a2.(buffer := a2.buffer + [Piece(item.page, txt)]);
      if bufferTokens >= targetTokens {
        Flush();
      }
      assert State() == FlushIfFull(docName, overlapTokens, digest, targetTokens, a3);
    }

    /** buffer.append((page, txt)); buffer_tokens += tks */
    method Push(page: nat, txt: string)
      requires Valid()
      modifies this
      ensures Valid()
      ensures buffer == old(buffer) + [Piece(page, txt)]
      ensures bufferTokens == old(bufferTokens) + TokenCount(txt)
      ensures chunks == old(chunks) && currentSection == old(currentSection)
    {
      SumTokensSnoc(buffer, Piece(page, txt));
      buffer := buffer + [Piece(page, txt)];
      bufferTokens := bufferTokens + TokenCount(txt);
    }
  }

  /**
   * chunk_document (ingest/chunker.py:66-132): the k-th chunk (0-based) is
   * well formed with chunk index k.
   */
  method ChunkDocument(doc: Doc, targetTokens: nat, overlapTokens: nat,
                       headingRe: string -> bool, digest: string -> Sha1Hex)
    returns (chunks: seq<Chunk>)
    ensures chunks == ChunksOf(doc, targetTokens, overlapTokens, headingRe, digest)
    ensures forall k :: 0 <= k < |chunks| ==> WellFormed(chunks[k], k, doc.docName, digest)
  {
    var blocks := SplitIntoBlocks(doc.pages);
    var sectioned := BuildSections(blocks, headingRe);
    var st := new ChunkState(doc.docName, overlapTokens, digest);
    for n := 0 to |sectioned|
      invariant st.Valid()
      invariant st.docName == doc.docName && st.digest == digest && st.overlapTokens == overlapTokens
      invariant st.State() == Chunked(doc.docName, overlapTokens, digest, targetTokens, sectioned[..n])
    {
      assert sectioned[..n + 1][..n] == sectioned[..n];
      st.Add(sectioned[n], targetTokens);
    }
    assert sectioned[..|sectioned|] == sectioned;
    st.Flush();
    chunks := st.chunks;
  }
}
