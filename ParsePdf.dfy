/**
 * ingest/parse_pdf.py: page-text cleaning and the shape and statistics of
 * the parsed-document record.  The PDF libraries are not modelled: the
 * extraction step arrives as its outcome, either the raw page texts or the
 * exception it raised.
 */
module PageText {
  import opened Text

  const SoftHyphen: char := '\U{00AD}'

  // ---------------------------------------------------------------------
  // clean_text, one substitution at a time
  // ---------------------------------------------------------------------

  /** t.replace("­", "") */
  function RemoveSoftHyphens(s: string): (r: string)
    ensures |r| <= |s|
  {
    if s == [] then []
    else if s[0] == SoftHyphen then RemoveSoftHyphens(s[1..])
    else [s[0]] + RemoveSoftHyphens(s[1..])
  }

  predicate IsBlankChar(c: char) { c == ' ' || c == '\t' }

  function DropBlanks(s: string): (r: string)
    ensures |r| <= |s| && r == s[|s| - |r|..]
    ensures r == [] || !IsBlankChar(r[0])
  {
    if s != [] && IsBlankChar(s[0]) then DropBlanks(s[1..]) else s
  }

  /** re.sub(r"[ \t]+", " ", t) */
  function CollapseBlanks(s: string): (r: string)
    ensures |r| <= |s|
    decreases |s|
  {
    if s == [] then []
    else if IsBlankChar(s[0]) then " " + CollapseBlanks(DropBlanks(s))
    else [s[0]] + CollapseBlanks(s[1..])
  }

  function DropNewlines(s: string): (r: string)
    ensures |r| <= |s| && r == s[|s| - |r|..]
    ensures r == [] || r[0] != '\n'
  {
    if s != [] && s[0] == '\n' then DropNewlines(s[1..]) else s
  }

  predicate TripleNewlineAt(s: string, i: nat) {
    i + 2 < |s| && s[i] == '\n' && s[i + 1] == '\n' && s[i + 2] == '\n'
  }

  /** re.sub(r"\n{3,}", "\n\n", t) */
  function CapNewlines(s: string): (r: string)
    ensures |r| <= |s|
    decreases |s|
  {
    if s == [] then []
    else if TripleNewlineAt(s, 0) then "\n\n" + CapNewlines(DropNewlines(s))
    else [s[0]] + CapNewlines(s[1..])
  }

  /** clean_text (ingest/parse_pdf.py:14-18). */
  function CleanText(t: string): (r: string)
  {
    Strip(CapNewlines(CollapseBlanks(RemoveSoftHyphens(t))))
  }

  // ---------------------------------------------------------------------
  // Properties of the cleaned text
  // ---------------------------------------------------------------------

  predicate Lacks(s: string, c: char) {
    forall i :: 0 <= i < |s| ==> s[i] != c
  }

  predicate NoDoubleSpace(s: string) {
    forall i :: 0 <= i < |s| - 1 ==> !(s[i] == ' ' && s[i + 1] == ' ')
  }

  /** No tab, and no two spaces in a row. */
  predicate NoBlankRuns(s: string) {
    Lacks(s, '\t') && NoDoubleSpace(s)
  }

  predicate NoTripleNewline(s: string) {
    forall i :: 0 <= i < |s| ==> !TripleNewlineAt(s, i)
  }

  lemma SliceLacks(s: string, c: char, a: nat, b: nat)
    requires Lacks(s, c) && a <= b <= |s|
    ensures Lacks(s[a..b], c)
  {
    assert forall i :: 0 <= i < b - a ==> s[a..b][i] == s[a + i];
  }

  lemma SliceNoDoubleSpace(s: string, a: nat, b: nat)
    requires NoDoubleSpace(s) && a <= b <= |s|
    ensures NoDoubleSpace(s[a..b])
  {
    assert forall i :: 0 <= i < b - a ==> s[a..b][i] == s[a + i];
  }

  lemma SliceNoTripleNewline(s: string, a: nat, b: nat)
    requires NoTripleNewline(s) && a <= b <= |s|
    ensures NoTripleNewline(s[a..b])
  {
    var t := s[a..b];
    forall i | 0 <= i < |t| ensures !TripleNewlineAt(t, i) {
      if TripleNewlineAt(t, i) {
        assert TripleNewlineAt(s, a + i);
      }
    }
  }

  lemma ConsLacks(c: char, s: string, d: char)
    requires Lacks(s, d) && c != d
    ensures Lacks([c] + s, d)
  {
    assert forall i :: 1 <= i <= |s| ==> ([c] + s)[i] == s[i - 1];
  }

  lemma ConsNoDoubleSpace(c: char, s: string)
    requires NoDoubleSpace(s)
    requires s == [] || c != ' ' || s[0] != ' '
    ensures NoDoubleSpace([c] + s)
  {
    assert forall i :: 1 <= i <= |s| ==> ([c] + s)[i] == s[i - 1];
  }

  lemma {:induction false} RemoveSoftHyphensLacks(s: string)
    ensures Lacks(RemoveSoftHyphens(s), SoftHyphen)
  {
    if s != [] {
      RemoveSoftHyphensLacks(s[1..]);
      if s[0] != SoftHyphen { ConsLacks(s[0], RemoveSoftHyphens(s[1..]), SoftHyphen); }
    }
  }

  /** A character other than ' ' that the input lacks, the output lacks. */
  lemma {:induction false} CollapseBlanksLacks(s: string, c: char)
    requires Lacks(s, c) && c != ' '
    ensures Lacks(CollapseBlanks(s), c)
    decreases |s|
  {
    if s != [] {
      if IsBlankChar(s[0]) {
        var t := DropBlanks(s);
        SliceLacks(s, c, |s| - |t|, |s|);
        CollapseBlanksLacks(t, c);
        ConsLacks(' ', CollapseBlanks(t), c);
      } else {
        SliceLacks(s, c, 1, |s|);
        CollapseBlanksLacks(s[1..], c);
        ConsLacks(s[0], CollapseBlanks(s[1..]), c);
      }
    }
  }

  lemma {:induction false} CollapseBlanksFirst(s: string)
    requires s != []
    ensures CollapseBlanks(s) != []
    ensures IsBlankChar(s[0]) ==> CollapseBlanks(s)[0] == ' '
    ensures !IsBlankChar(s[0]) ==> CollapseBlanks(s)[0] == s[0]
  {
  }

  lemma {:induction false} CollapseBlanksNoRuns(s: string)
    ensures NoBlankRuns(CollapseBlanks(s))
    decreases |s|
  {
    if s == [] {
    } else if IsBlankChar(s[0]) {
      var t := DropBlanks(s);
      CollapseBlanksNoRuns(t);
      if t != [] { CollapseBlanksFirst(t); }
      ConsLacks(' ', CollapseBlanks(t), '\t');
      ConsNoDoubleSpace(' ', CollapseBlanks(t));
    } else {
      var t := s[1..];
      CollapseBlanksNoRuns(t);
      if t != [] { CollapseBlanksFirst(t); }
      ConsLacks(s[0], CollapseBlanks(t), '\t');
      ConsNoDoubleSpace(s[0], CollapseBlanks(t));
    }
  }

  /** CapNewlines never changes the first two characters. */
  lemma {:induction false} CapNewlinesFront(s: string)
    ensures |s| >= 1 ==> |CapNewlines(s)| >= 1 && CapNewlines(s)[0] == s[0]
    ensures |s| >= 2 ==> |CapNewlines(s)| >= 2 && CapNewlines(s)[1] == s[1]
  {
    if |s| >= 2 && !TripleNewlineAt(s, 0) {
      CapNewlinesFront(s[1..]);
    }
  }

  lemma {:induction false} CapNewlinesNoTriple(s: string)
    ensures NoTripleNewline(CapNewlines(s))
    decreases |s|
  {
    if s == [] {
    } else if TripleNewlineAt(s, 0) {
      var t := DropNewlines(s);
      CapNewlinesNoTriple(t);
      CapNewlinesFront(t);
      var c := CapNewlines(t);
      var r := "\n\n" + c;
      forall i | 0 <= i < |r| ensures !TripleNewlineAt(r, i) {
        if i >= 2 { assert !TripleNewlineAt(c, i - 2); }
      }
    } else {
      var t := s[1..];
      CapNewlinesNoTriple(t);
      CapNewlinesFront(t);
      var c := CapNewlines(t);
      var r := [s[0]] + c;
      forall i | 0 <= i < |r| ensures !TripleNewlineAt(r, i) {
        if i >= 1 { assert !TripleNewlineAt(c, i - 1); }
      }
    }
  }

  /** A character other than '\n' that the input lacks, the output lacks. */
  lemma {:induction false} CapNewlinesLacks(s: string, c: char)
    requires Lacks(s, c) && c != '\n'
    ensures Lacks(CapNewlines(s), c)
    decreases |s|
  {
    if s != [] {
      if TripleNewlineAt(s, 0) {
        var t := DropNewlines(s);
        SliceLacks(s, c, |s| - |t|, |s|);
        CapNewlinesLacks(t, c);
        ConsLacks('\n', CapNewlines(t), c);
        ConsLacks('\n', "\n" + CapNewlines(t), c);
        assert "\n\n" + CapNewlines(t) == ['\n'] + ("\n" + CapNewlines(t));
      } else {
        SliceLacks(s, c, 1, |s|);
        CapNewlinesLacks(s[1..], c);
        ConsLacks(s[0], CapNewlines(s[1..]), c);
      }
    }
  }

  lemma {:induction false} CapNewlinesNoDoubleSpace(s: string)
    requires NoDoubleSpace(s)
    ensures NoDoubleSpace(CapNewlines(s))
    decreases |s|
  {
    if s == [] {
    } else if TripleNewlineAt(s, 0) {
      var t := DropNewlines(s);
      SliceNoDoubleSpace(s, |s| - |t|, |s|);
      CapNewlinesNoDoubleSpace(t);
      ConsNoDoubleSpace('\n', CapNewlines(t));
      ConsNoDoubleSpace('\n', "\n" + CapNewlines(t));
      assert "\n\n" + CapNewlines(t) == ['\n'] + ("\n" + CapNewlines(t));
    } else {
      var t := s[1..];
      SliceNoDoubleSpace(s, 1, |s|);
      CapNewlinesNoDoubleSpace(t);
      CapNewlinesFront(t);
      ConsNoDoubleSpace(s[0], CapNewlines(t));
    }
  }

  /**
   * The four promises of clean_text: no soft hyphen, no run of spaces or
   * tabs (no tab at all), no three newlines in a row, no whitespace at
   * either end.
   */
  lemma CleanTextProperties(t: string)
    ensures Lacks(CleanText(t), SoftHyphen)
    ensures NoBlankRuns(CleanText(t))
    ensures NoTripleNewline(CleanText(t))
    ensures CleanText(t) == [] || (!IsSpace(CleanText(t)[0]) && !IsSpace(CleanText(t)[|CleanText(t)| - 1]))
  {
    var s1 := RemoveSoftHyphens(t);
    RemoveSoftHyphensLacks(t);
    var s2 := CollapseBlanks(s1);
    CollapseBlanksLacks(s1, SoftHyphen);
    CollapseBlanksNoRuns(s1);
    var s3 := CapNewlines(s2);
    CapNewlinesLacks(s2, SoftHyphen);
    CapNewlinesLacks(s2, '\t');
    CapNewlinesNoDoubleSpace(s2);
    CapNewlinesNoTriple(s2);
    var a := StripOffset(s3);
    var b := a + |Strip(s3)|;
    SliceLacks(s3, SoftHyphen, a, b);
    SliceLacks(s3, '\t', a, b);
    SliceNoDoubleSpace(s3, a, b);
    SliceNoTripleNewline(s3, a, b);
  }

  // ---------------------------------------------------------------------
  // Idempotence: cleaning a cleaned text changes nothing
  // ---------------------------------------------------------------------

  lemma {:induction false} RemoveSoftHyphensIdentity(s: string)
    requires Lacks(s, SoftHyphen)
    ensures RemoveSoftHyphens(s) == s
  {
    if s != [] {
      RemoveSoftHyphensIdentity(s[1..]);
      assert s == [s[0]] + s[1..];
    }
  }

  lemma {:induction false} CollapseBlanksIdentity(s: string)
    requires NoBlankRuns(s)
    ensures CollapseBlanks(s) == s
    decreases |s|
  {
    if s != [] {
      var t := s[1..];
      assert NoBlankRuns(t) by {
        assert forall i :: 0 <= i < |t| ==> t[i] == s[i + 1];
      }
      CollapseBlanksIdentity(t);
      if IsBlankChar(s[0]) {
        assert s[0] == ' ';
        assert DropBlanks(s) == t;
      }
      assert s == [s[0]] + t;
    }
  }

  lemma {:induction false} CapNewlinesIdentity(s: string)
    requires NoTripleNewline(s)
    ensures CapNewlines(s) == s
    decreases |s|
  {
    if s != [] {
      var t := s[1..];
      SliceNoTripleNewline(s, 1, |s|);
      assert s[1..|s|] == t;
      CapNewlinesIdentity(t);
      assert !TripleNewlineAt(s, 0);
      assert s == [s[0]] + t;
    }
  }

  /** clean_text(clean_text(t)) == clean_text(t). */
  lemma CleanTextIdempotent(t: string)
    ensures CleanText(CleanText(t)) == CleanText(t)
  {
    var u := CleanText(t);
    CleanTextProperties(t);
    RemoveSoftHyphensIdentity(u);
    CollapseBlanksIdentity(u);
    CapNewlinesIdentity(u);
    StripNoEdgeSpace(u);
  }
}

/** parse_pdf: the result record and its statistics. */
module ParsePdf {
  import opened Text
  import opened Records
  import opened PageText

  // ---------------------------------------------------------------------
  // parse_pdf
  // ---------------------------------------------------------------------

  datatype Page = Page(page: nat, text: string)

  datatype Doc = Doc(
    docName: string,
    docPath: string,
    numPages: nat,
    nonemptyPages: nat,
    totalChars: nat,
    pages: seq<Page>)

  /** type(e).__name__ and str(e) of the exception an extractor raised. */
  datatype Exception = Exception(typeName: string, message: string)

  /** What the PDF extractors produced: raw page texts, or an exception. */
  datatype Extraction = Extracted(rawPages: seq<string>) | Raised(exc: Exception)

  /** The (doc_json, error_message) pair parse_pdf returns. */
  datatype ParseOutcome = ParseOutcome(doc: Option<Doc>, error: Option<string>)

  /** The page list the extractors build (ingest/parse_pdf.py:21-36), one entry per raw page. */
  function CleanPages(raw: seq<string>): (pages: seq<Page>)
    ensures |pages| == |raw|
  {
    if raw == [] then []
    else CleanPages(raw[..|raw| - 1]) + [Page(|raw|, CleanText(raw[|raw| - 1]))]
  }

  /** Page k (0-based) is numbered k + 1 and holds the cleaned raw text of page k. */
  lemma {:induction false} CleanPagesAt(raw: seq<string>, k: nat)
    requires k < |raw|
    ensures CleanPages(raw)[k] == Page(k + 1, CleanText(raw[k]))
  {
    var init := raw[..|raw| - 1];
    var last := Page(|raw|, CleanText(raw[|raw| - 1]));
    assert CleanPages(raw) == CleanPages(init) + [last];
    if k < |raw| - 1 {
      CleanPagesAt(init, k);
      assert init[k] == raw[k];
    }
  }

  lemma CleanPagesAll(raw: seq<string>)
    ensures forall k :: 0 <= k < |raw| ==> CleanPages(raw)[k] == Page(k + 1, CleanText(raw[k]))
  {
    forall k | 0 <= k < |raw| ensures CleanPages(raw)[k] == Page(k + 1, CleanText(raw[k])) {
      CleanPagesAt(raw, k);
    }
  }

  function TotalChars(pages: seq<Page>): nat {
    if pages == [] then 0 else TotalChars(pages[..|pages| - 1]) + |pages[|pages| - 1].text|
  }

  function NonemptyPages(pages: seq<Page>): (n: nat)
    ensures n <= |pages|
  {
    if pages == [] then 0
    else NonemptyPages(pages[..|pages| - 1]) + (if pages[|pages| - 1].text != "" then 1 else 0)
  }

  /** Every page text counts toward total_chars; a non-empty page adds at least one. */
  lemma {:induction false} NonemptyBoundsChars(pages: seq<Page>)
    ensures NonemptyPages(pages) <= TotalChars(pages)
  {
    if pages != [] { NonemptyBoundsChars(pages[..|pages| - 1]); }
  }

  /** The positions of the pages whose text is non-empty. */
  ghost function NonemptyIndices(pages: seq<Page>): set<nat> {
    set k: nat | k < |pages| && pages[k].text != ""
  }

  /** nonempty_pages counts exactly the pages with non-empty text. */
  lemma {:induction false} NonemptyPagesCount(pages: seq<Page>)
    ensures NonemptyPages(pages) == |NonemptyIndices(pages)|
  {
    if pages != [] {
      var n := |pages| - 1;
      var init := pages[..n];
      NonemptyPagesCount(init);
      var last: set<nat> := if pages[n].text != "" then {n} else {};
      assert forall k :: 0 <= k < n ==> init[k] == pages[k];
      assert NonemptyIndices(pages) == NonemptyIndices(init) + last;
      assert n !in NonemptyIndices(init);
    }
  }

  /**
   * parse_pdf (ingest/parse_pdf.py:40-62): exactly one of the document and
   * the error message is present; the statistics describe the page list.
   */
  function ParsePdf(pdfName: string, pdfPath: string, extraction: Extraction): (r: ParseOutcome)
    ensures r.doc.Some? != r.error.Some?
    ensures extraction.Raised? ==>
      r.error == Some(extraction.exc.typeName + ": " + extraction.exc.message)
    ensures extraction.Extracted? ==>
      && r.doc.Some?
      && r.doc.value.docName == pdfName && r.doc.value.docPath == pdfPath
      && r.doc.value.numPages == |extraction.rawPages| == |r.doc.value.pages|
      && r.doc.value.nonemptyPages == NonemptyPages(r.doc.value.pages) <= r.doc.value.numPages
      && r.doc.value.nonemptyPages <= r.doc.value.totalChars
      && r.doc.value.totalChars == TotalChars(r.doc.value.pages)
      && (forall k :: 0 <= k < |r.doc.value.pages| ==>
            r.doc.value.pages[k] == Page(k + 1, CleanText(extraction.rawPages[k])))
  {
    match extraction
    case Raised(e) => ParseOutcome(None, Some(e.typeName + ": " + e.message))
    case Extracted(raw) =>
      var pages := CleanPages(raw);
      CleanPagesAll(raw);
      NonemptyBoundsChars(pages);
      ParseOutcome(Some(Doc(pdfName, pdfPath, |pages|, NonemptyPages(pages), TotalChars(pages), pages)), None)
  }
}
