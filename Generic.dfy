/**
 * answer_generic_grounded of api/generic.py: a header, the question, and up
 * to five numbered excerpts of the sources, each a stripped single-line
 * snippet of at most 400 characters followed by the citation of its
 * source, then a closing "Next step" paragraph.  Its _cite is the same
 * format as cite in api/synthesis.py, so Synthesis.Cite stands for both.
 */
module Generic {
  import opened Text
  import opened Records
  import opened Sorting
  import opened Lists
  import opened Synthesis

  const Unable := "### Unable to answer from the provided dataset\n"
    + "I searched the approved manuals but could not find enough evidence.\n"
  const Header := "### Answer (grounded)\n"
  const Intro := "Here are the most relevant excerpts I found:\n"
  const NextStep := "\n### Next step\n" + "If you want, I can extract the exact property name/value "
    + "*only if it appears explicitly in the excerpts above*."

  /** At most this many sources are quoted, each in at most this many characters. */
  const MaxExcerpts := 5
  const SnippetLength := 400

  /** s.replace("\n", " ") */
  function ReplaceNewlines(s: string): (r: string)
    ensures |r| == |s| && NoNewline(r)
    ensures forall i :: 0 <= i < |s| && s[i] == '\n' ==> r[i] == ' '
    ensures forall i :: 0 <= i < |s| && s[i] != '\n' ==> r[i] == s[i]
  {
    seq(|s|, i requires 0 <= i < |s| => if s[i] == '\n' then ' ' else s[i])
  }

  /** The quoted part of a source: its stripped text on one line, cut to 400 characters. */
  function Snippet(text: string): string {
    Take(ReplaceNewlines(Strip(text)), SnippetLength)
  }

  lemma SnippetShape(text: string)
    ensures |Snippet(text)| <= SnippetLength && NoNewline(Snippet(text))
    ensures |Strip(text)| <= SnippetLength ==> |Snippet(text)| == |Strip(text)|
    ensures forall i :: 0 <= i < |Snippet(text)| && Strip(text)[i] != '\n' ==> Snippet(text)[i] == Strip(text)[i]
  {
  }

  /** f"{i}. {snippet[:400]} {_cite(s)}" */
  function ExcerptLine(i: nat, c: Chunk): string {
    ShowNat(i) + ". " + Snippet(c.text) + " " + Cite(c)
  }

  /** Each excerpt line opens with its number and ends with the citation of its own source. */
  lemma ExcerptLineShape(i: nat, c: Chunk)
    ensures StartsWith(ExcerptLine(i, c), ShowNat(i) + ". ")
    ensures EndsWith(ExcerptLine(i, c), Cite(c))
  {
    Framed(ShowNat(i) + ". ", Snippet(c.text), " ", Cite(c));
  }

  /** The numbered excerpts of the first sources, numbered from 1. */
  function Excerpts(sources: seq<Chunk>): (lines: seq<string>)
  {
    Numbered(sources, ExcerptLine)
  }

  /** The three opening lines. */
  function Opening(question: string): seq<string> {
    [Header, "**Question:** " + question + "\n", Intro]
  }

  /** The first five sources. */
  function Quoted(sources: seq<Chunk>): (q: seq<Chunk>)
    ensures |q| == Min(MaxExcerpts, |sources|) && q == sources[..|q|]
  {
    sources[..Min(MaxExcerpts, |sources|)]
  }

  function GenericLines(question: string, sources: seq<Chunk>): seq<string> {
    Opening(question) + Excerpts(Quoted(sources)) + [NextStep]
  }

  /** answer_generic_grounded(question, sources) */
  function AnswerGeneric(question: string, sources: seq<Chunk>): string {
    if sources == [] then Unable else Join("\n", GenericLines(question, sources))
  }

  /** The loop over enumerate(quoted, 1), appending one excerpt line per source. */
  method AppendExcerpts(start: seq<string>, quoted: seq<Chunk>) returns (lines: seq<string>)
    ensures lines == start + Excerpts(quoted)
  {
    lines := start;
    for i := 0 to |quoted|
      invariant lines == start + Excerpts(quoted[..i])
    {
      var s := quoted[i];
      var snippet := ReplaceNewlines(Strip(s.text));
      NumberedSnoc(quoted, i, ExcerptLine);
      lines := lines + [ShowNat(i + 1) + ". " + Take(snippet, SnippetLength) + " " + Cite(s)];
    }
    assert quoted[..|quoted|] == quoted;
  }

  method AnswerGenericGrounded(question: string, sources: seq<Chunk>) returns (answer: string)
    ensures answer == AnswerGeneric(question, sources)
  {
    if sources == [] {
      return Unable;
    }
    var lines := AppendExcerpts(Opening(question), sources[..Min(MaxExcerpts, |sources|)]);
    lines := lines + [NextStep];
    answer := Join("\n", lines);
  }

  /**
   * With sources, the answer holds the opening lines and one excerpt line
   * for each of the first five sources, in order, ending with the citation
   * of that source; it starts with the header and ends with the Next step
   * paragraph.
   */
  lemma GenericLinesShape(question: string, sources: seq<Chunk>)
    ensures |GenericLines(question, sources)| == 4 + Min(MaxExcerpts, |sources|)
    ensures forall k :: 0 <= k < Min(MaxExcerpts, |sources|) ==>
      GenericLines(question, sources)[3 + k] == ExcerptLine(k + 1, sources[k])
      && EndsWith(GenericLines(question, sources)[3 + k], Cite(sources[k]))
  {
    var q := Quoted(sources);
    var lines := GenericLines(question, sources);
    forall k | 0 <= k < |q|
      ensures lines[3 + k] == ExcerptLine(k + 1, sources[k]) && EndsWith(lines[3 + k], Cite(sources[k]))
    {
      assert lines[3 + k] == Excerpts(q)[k];
      ExcerptLineShape(k + 1, sources[k]);
    }
  }

  lemma GenericAnswerEnds(question: string, sources: seq<Chunk>)
    ensures sources == [] ==> AnswerGeneric(question, sources) == Unable
    ensures sources != [] ==> StartsWith(AnswerGeneric(question, sources), "### Answer (grounded)")
    ensures sources != [] ==> EndsWith(AnswerGeneric(question, sources), NextStep)
  {
    if sources != [] {
      var lines := GenericLines(question, sources);
      var init := Opening(question) + Excerpts(Quoted(sources));
      JoinHead("\n", lines);
      StartsWithConcat("### Answer (grounded)", "\n");
      StartsWithTrans(Join("\n", lines), Header, "### Answer (grounded)");
      assert lines == init + [NextStep];
      JoinSnoc("\n", init, NextStep);
      var a := Join("\n", lines);
      assert a[|a| - |NextStep|..] == NextStep;
    }
  }
}
