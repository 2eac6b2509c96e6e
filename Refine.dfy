/**
 * api/refine.py: entity extraction from retrieved evidence and the refined
 * query built from it.  The three entity sets are collected by a loop over
 * the sources and then listed as sorted(list(set))[:n].
 */
module Refine {
  import opened Text
  import opened Records
  import opened Sorting

  // ---------------------------------------------------------------------
  // Constants
  // ---------------------------------------------------------------------

  const Ricoh: string := "RICOH ProcessDirector"
  const ProcessDirector: string := "ProcessDirector"

  const Stopwords: set<string> := {
    "the", "and", "for", "with", "from", "this", "that", "then", "than", "into", "onto", "when", "what",
    "where", "how", "does", "do", "did", "can", "will", "should", "would", "could", "are", "is", "was",
    "were", "been", "being", "it", "its", "you", "your", "they", "their", "them", "we", "our", "but",
    "also", "may", "might", "must", "not", "no", "yes", "a", "an", "to", "of", "in", "on", "at", "as"
  }

  /** Substrings that make a token look like a command or executable. */
  const CommandMarkers: seq<string> := ["aiw", "rpd", "pd", "db2", "psql", "systemctl", "service", "cmd", "exe"]

  /** Commands kept by name. */
  const NamedCommands: set<string> := {"stopaiw", "startaiw"}

  /** Manual keywords, matched case-insensitively. */
  const KeywordList: seq<string> := ["DB2", "PostgreSQL", "Windows", "Linux", "workflow", "property", "RAM", "memory", "disk", "logs"]

  const MaxSoftware: nat := 5
  const MaxCommands: nat := 10
  const MaxKeywords: nat := 10

  // ---------------------------------------------------------------------
  // TOKEN_RE.findall: \b[a-zA-Z][a-zA-Z0-9_\-]{2,}\b
  // ---------------------------------------------------------------------

  /** The characters of [a-zA-Z0-9_\-]. */
  predicate IsTokenChar(c: char) { IsWordChar(c) || c == '-' }

  /** The length of the run of token characters s starts with. */
  function RunLen(s: string): (n: nat)
    ensures n <= |s|
    ensures forall k :: 0 <= k < n ==> IsTokenChar(s[k])
    ensures n == |s| || !IsTokenChar(s[n])
  {
    if s == [] || !IsTokenChar(s[0]) then 0 else 1 + RunLen(s[1..])
  }

  /** A letter at which \b holds: the start, or right after a hyphen. */
  predicate StartsToken(r: string, k: nat)
    requires k < |r|
  {
    IsLetter(r[k]) && (k == 0 || !IsWordChar(r[k - 1]))
  }

  /** The first position at or after k where a match may start, or |r|. */
  function FirstStart(r: string, k: nat): (p: nat)
    requires k <= |r|
    ensures k <= p <= |r|
    ensures p < |r| ==> StartsToken(r, p)
    ensures forall j :: k <= j < p ==> !StartsToken(r, j)
    decreases |r| - k
  {
    if k == |r| then k
    else if StartsToken(r, k) then k
    else FirstStart(r, k + 1)
  }

  /** t without its trailing hyphens: where the final \b lets a greedy match end. */
  function DropTrailingHyphens(t: string): (u: string)
    ensures |u| <= |t| && u == t[..|u|]
    ensures u == [] || u[|u| - 1] != '-'
  {
    if t == [] || t[|t| - 1] != '-' then t else DropTrailingHyphens(t[..|t| - 1])
  }

  /**
   * The match inside one maximal run r of token characters.  A match starts
   * at a letter with \b before it and runs greedily to the last word
   * character of r; a later start in r would give a shorter match, so if
   * the first start is too short, r holds no match at all.
   */
  function RunToken(r: string): (toks: seq<string>)
  {
    var p := FirstStart(r, 0);
    if p == |r| then []
    else
      var t := DropTrailingHyphens(r[p..]);
      if |t| >= 3 then [t] else []
  }

  /** TOKEN_RE.findall(s), for ASCII text. */
  function Tokens(s: string): (toks: seq<string>)
    decreases |s|
  {
    if s == [] then []
    else if !IsTokenChar(s[0]) then Tokens(s[1..])
    else
      var n := RunLen(s);
      RunToken(s[..n]) + Tokens(s[n..])
  }

  /** What every match of TOKEN_RE looks like. */
  predicate TokenShape(t: string) {
    && |t| >= 3
    && IsLetter(t[0])
    && IsWordChar(t[|t| - 1])
    && (forall k :: 0 <= k < |t| ==> IsTokenChar(t[k]))
  }

  lemma RunTokenFacts(s: string, n: nat)
    requires n <= |s| && forall k :: 0 <= k < n ==> IsTokenChar(s[k])
    ensures forall t :: t in RunToken(s[..n]) ==> TokenShape(t) && Contains(s, t)
  {
    var r := s[..n];
    var p := FirstStart(r, 0);
    if p < |r| {
      var t := DropTrailingHyphens(r[p..]);
      if |t| >= 3 {
        assert t[0] == r[p];
        assert forall k :: 0 <= k < |t| ==> t[k] == s[p + k];
        assert OccursAt(s, t, p);
      }
    }
  }

  /** Every token has the shape of a match and occurs in the text. */
  lemma {:induction false} TokensFacts(s: string)
    ensures forall t :: t in Tokens(s) ==> TokenShape(t) && Contains(s, t)
    decreases |s|
  {
    if s != [] {
      var n := if !IsTokenChar(s[0]) then 1 else RunLen(s);
      TokensFacts(s[n..]);
      forall t | t in Tokens(s[n..]) ensures Contains(s, t) {
        var i :| 0 <= i <= |s[n..]| && OccursAt(s[n..], t, i);
        OccursShift(s, t, n, i);
      }
      if IsTokenChar(s[0]) {
        RunTokenFacts(s, n);
      } else {
        assert s[1..] == s[n..];
      }
    }
  }

  // ---------------------------------------------------------------------
  // What each text contributes
  // ---------------------------------------------------------------------

  /** any(x in t for x in [...]) */
  predicate HasMarker(t: string) {
    exists m :: m in CommandMarkers && Contains(t, m)
  }

  /** The commands rule applied to one lowered token. */
  predicate IsCommand(t: string) {
    t !in Stopwords && (HasMarker(t) || t in NamedCommands)
  }

  function SoftwareIn(text: string): (s: set<string>)
  {
    (if Contains(text, Ricoh) then {Ricoh} else {}) + (if Contains(text, ProcessDirector) then {ProcessDirector} else {})
  }

  function KeywordsIn(text: string): (s: set<string>)
  {
    set kw | kw in KeywordList && Contains(Lower(text), Lower(kw))
  }

  /** The commands contributed by a list of tokens. */
  function CommandsOfTokens(toks: seq<string>): (s: set<string>)
  {
    if toks == [] then {}
    else
      var t := Lower(toks[|toks| - 1]);
      CommandsOfTokens(toks[..|toks| - 1]) + (if IsCommand(t) then {t} else {})
  }

  function CommandsIn(text: string): (s: set<string>)
  {
    CommandsOfTokens(Tokens(text))
  }

  /** s.get("text") or "" for each source. */
  function TextsOf(sources: seq<Hit>): (ts: seq<string>)
    ensures |ts| == |sources|
    ensures forall k :: 0 <= k < |sources| ==> ts[k] == sources[k].chunk.text
  {
    seq(|sources|, k requires 0 <= k < |sources| => sources[k].chunk.text)
  }

  /** The three sets accumulated over a list of texts. */
  function SoftwareOf(texts: seq<string>): (s: set<string>)
  {
    if texts == [] then {} else SoftwareOf(texts[..|texts| - 1]) + SoftwareIn(texts[|texts| - 1])
  }

  function KeywordsOf(texts: seq<string>): (s: set<string>)
  {
    if texts == [] then {} else KeywordsOf(texts[..|texts| - 1]) + KeywordsIn(texts[|texts| - 1])
  }

  function CommandsOf(texts: seq<string>): (s: set<string>)
  {
    if texts == [] then {} else CommandsOf(texts[..|texts| - 1]) + CommandsIn(texts[|texts| - 1])
  }

  // ---------------------------------------------------------------------
  // extract_entities_from_sources
  // ---------------------------------------------------------------------

  datatype Entities = Entities(software: seq<string>, commands: seq<string>, keywords: seq<string>)

  /** e is what extraction lists for texts: each set sorted and capped. */
  ghost predicate Extracted(e: Entities, texts: seq<string>) {
    && TopSorted(e.software, SoftwareOf(texts), MaxSoftware)
    && TopSorted(e.commands, CommandsOf(texts), MaxCommands)
    && TopSorted(e.keywords, KeywordsOf(texts), MaxKeywords)
  }

  /** The entities extraction lists for texts, as a function. */
  ghost function EntitiesFor(texts: seq<string>): (e: Entities)
    ensures Extracted(e, texts)
  {
    Entities(TopOf(SoftwareOf(texts), MaxSoftware), TopOf(CommandsOf(texts), MaxCommands),
      TopOf(KeywordsOf(texts), MaxKeywords))
  }

  /** Extraction is determined by the texts: there is one result only. */
  lemma ExtractedUnique(e: Entities, texts: seq<string>)
    requires Extracted(e, texts)
    ensures e == EntitiesFor(texts)
  {
    var f := EntitiesFor(texts);
    TopSortedUnique(e.software, f.software, SoftwareOf(texts), MaxSoftware);
    TopSortedUnique(e.commands, f.commands, CommandsOf(texts), MaxCommands);
    TopSortedUnique(e.keywords, f.keywords, KeywordsOf(texts), MaxKeywords);
  }

  /** The keyword loop over one text. */
  method AddKeywords(keywords: set<string>, text: string) returns (out: set<string>)
    ensures out == keywords + KeywordsIn(text)
  {
    out := keywords;
    var lowered := Lower(text);
    for j := 0 to |KeywordList|
      invariant out == keywords + (set kw | kw in KeywordList[..j] && Contains(lowered, Lower(kw)))
    {
      var kw := KeywordList[j];
      assert KeywordList[..j + 1] == KeywordList[..j] + [kw];
      if Contains(lowered, Lower(kw)) {
        out := out + {kw};
      }
    }
    assert KeywordList[..|KeywordList|] == KeywordList;
  }

  /** The token loop over one text. */
  method AddCommands(commands: set<string>, text: string) returns (out: set<string>)
    ensures out == commands + CommandsIn(text)
  {
    out := commands;
    var toks := Tokens(text);
    for j := 0 to |toks|
      invariant out == commands + CommandsOfTokens(toks[..j])
    {
      var t := Lower(toks[j]);
      assert toks[..j + 1][..j] == toks[..j];
      if t in Stopwords {
        continue;
      }
      if HasMarker(t) {
        out := out + {t};
      }
      if t in NamedCommands {
        out := out + {t};
      }
    }
    assert toks[..|toks|] == toks;
  }

  method ExtractEntities(sources: seq<Hit>) returns (e: Entities)
    ensures Extracted(e, TextsOf(sources))
  {
    ghost var texts := TextsOf(sources);
    var software: set<string> := {};
    var commands: set<string> := {};
    var keywords: set<string> := {};
    for i := 0 to |sources|
      invariant software == SoftwareOf(texts[..i])
      invariant commands == CommandsOf(texts[..i])
      invariant keywords == KeywordsOf(texts[..i])
    {
      var text := sources[i].chunk.text;
      assert texts[..i + 1][..i] == texts[..i];
      if Contains(text, Ricoh) {
        software := software + {Ricoh};
      }
      if Contains(text, ProcessDirector) {
        software := software + {ProcessDirector};
      }
      keywords := AddKeywords(keywords, text);
      commands := AddCommands(commands, text);
    }
    assert texts[..|sources|] == texts;
    var sw := SortedPrefix(software, MaxSoftware);
    var cm := SortedPrefix(commands, MaxCommands);
    var kw := SortedPrefix(keywords, MaxKeywords);
    e := Entities(sw, cm, kw);
  }

  // ---------------------------------------------------------------------
  // Properties of the extraction
  // ---------------------------------------------------------------------

  lemma {:induction false} SoftwareMembers(texts: seq<string>, x: string)
    ensures x in SoftwareOf(texts) <==> exists t :: t in texts && x in SoftwareIn(t)
  {
    if texts != [] {
      var init := texts[..|texts| - 1];
      SoftwareMembers(init, x);
      assert texts == init + [texts[|texts| - 1]];
    }
  }

  lemma {:induction false} KeywordsMembers(texts: seq<string>, x: string)
    ensures x in KeywordsOf(texts) <==> exists t :: t in texts && x in KeywordsIn(t)
  {
    if texts != [] {
      var init := texts[..|texts| - 1];
      KeywordsMembers(init, x);
      assert texts == init + [texts[|texts| - 1]];
    }
  }

  lemma {:induction false} CommandsMembers(texts: seq<string>, x: string)
    ensures x in CommandsOf(texts) <==> exists t :: t in texts && x in CommandsIn(t)
  {
    if texts != [] {
      var init := texts[..|texts| - 1];
      CommandsMembers(init, x);
      assert texts == init + [texts[|texts| - 1]];
    }
  }

  lemma {:induction false} CommandsOfTokensMembers(toks: seq<string>, x: string)
    ensures x in CommandsOfTokens(toks) <==> exists k :: 0 <= k < |toks| && x == Lower(toks[k]) && IsCommand(x)
  {
    if toks != [] {
      var init := toks[..|toks| - 1];
      CommandsOfTokensMembers(init, x);
      assert forall k :: 0 <= k < |init| ==> init[k] == toks[k];
    }
  }

  lemma {:induction false} ElemsCard<T>(xs: seq<T>)
    ensures |Elems(xs)| <= |xs|
  {
    if xs != [] {
      var init := xs[..|xs| - 1];
      ElemsCard(init);
      assert Elems(xs) == Elems(init) + {xs[|xs| - 1]};
    }
  }

  /** Only the two product names are recognised. */
  lemma {:induction false} SoftwareNames(texts: seq<string>)
    ensures SoftwareOf(texts) <= {Ricoh, ProcessDirector}
  {
    if texts != [] {
      SoftwareNames(texts[..|texts| - 1]);
    }
  }

  /** A text naming "RICOH ProcessDirector" also names "ProcessDirector". */
  lemma RicohNamesProduct(text: string)
    ensures Ricoh in SoftwareIn(text) ==> ProcessDirector in SoftwareIn(text)
  {
    if Contains(text, Ricoh) {
      var i :| 0 <= i <= |text| && OccursAt(text, Ricoh, i);
      assert Ricoh == "RICOH " + ProcessDirector;
      assert text[i + 6..i + 6 + |ProcessDirector|] == Ricoh[6..];
      assert OccursAt(text, ProcessDirector, i + 6);
    }
  }

  /** At most the two product names, so the cap of five never bites. */
  lemma SoftwareFew(texts: seq<string>)
    ensures |SoftwareOf(texts)| <= 2
  {
    SoftwareNames(texts);
    assert SoftwareOf(texts) <= Elems([Ricoh, ProcessDirector]);
    SubsetCard(SoftwareOf(texts), Elems([Ricoh, ProcessDirector]));
    ElemsCard([Ricoh, ProcessDirector]);
  }

  lemma RicohImpliesProduct(texts: seq<string>)
    ensures Ricoh in SoftwareOf(texts) ==> ProcessDirector in SoftwareOf(texts)
  {
    SoftwareMembers(texts, Ricoh);
    SoftwareMembers(texts, ProcessDirector);
    if Ricoh in SoftwareOf(texts) {
      var t :| t in texts && Ricoh in SoftwareIn(t);
      RicohNamesProduct(t);
    }
  }

  /**
   * The software list holds exactly the product names found in some text,
   * and lists "ProcessDirector" whenever it lists "RICOH ProcessDirector".
   */
  lemma SoftwareListed(e: Entities, texts: seq<string>)
    requires Extracted(e, texts)
    ensures forall x :: x in e.software <==> exists t :: t in texts && x in SoftwareIn(t)
    ensures forall x :: x in e.software ==> x == Ricoh || x == ProcessDirector
    ensures Ricoh in e.software ==> ProcessDirector in e.software
  {
    SoftwareNames(texts);
    SoftwareFew(texts);
    RicohImpliesProduct(texts);
    TopSortedComplete(e.software, SoftwareOf(texts), MaxSoftware);
    forall x ensures x in SoftwareOf(texts) <==> exists t :: t in texts && x in SoftwareIn(t) {
      SoftwareMembers(texts, x);
    }
  }

  lemma {:induction false} KeywordNames(texts: seq<string>)
    ensures KeywordsOf(texts) <= Elems(KeywordList)
  {
    if texts != [] {
      KeywordNames(texts[..|texts| - 1]);
    }
  }

  /**
   * At most ten keywords exist, so the cap never bites: a keyword is listed
   * exactly when its lower-case form occurs in some lower-cased text.
   */
  lemma KeywordsListed(e: Entities, texts: seq<string>)
    requires Extracted(e, texts)
    ensures forall kw :: kw in e.keywords <==>
      kw in KeywordList && exists t :: t in texts && Contains(Lower(t), Lower(kw))
  {
    KeywordNames(texts);
    SubsetCard(KeywordsOf(texts), Elems(KeywordList));
    ElemsCard(KeywordList);
    TopSortedComplete(e.keywords, KeywordsOf(texts), MaxKeywords);
    forall kw ensures kw in KeywordsOf(texts) <==>
      kw in KeywordList && exists t :: t in texts && Contains(Lower(t), Lower(kw))
    {
      KeywordsMembers(texts, kw);
    }
  }

  /** The named start/stop commands contain the "aiw" marker anyway. */
  lemma NamedCommandsMarked(t: string)
    requires t in NamedCommands
    ensures HasMarker(t)
  {
    assert "aiw" in CommandMarkers;
    if t == "stopaiw" {
      assert OccursAt(t, "aiw", 4);
    } else {
      assert OccursAt(t, "aiw", 5);
    }
  }

  /** A command found in one text is a marked, lowered token of it. */
  lemma CommandInText(text: string, c: string)
    requires c in CommandsIn(text)
    ensures exists tok :: tok in Tokens(text) && c == Lower(tok)
    ensures c !in Stopwords && HasMarker(c)
    ensures IsLowered(c) && TokenShape(c)
  {
    var toks := Tokens(text);
    CommandsOfTokensMembers(toks, c);
    var j :| 0 <= j < |toks| && c == Lower(toks[j]) && IsCommand(c);
    TokensFacts(text);
    assert toks[j] in toks;
    assert TokenShape(toks[j]);
    if c in NamedCommands {
      NamedCommandsMarked(c);
    }
  }

  /**
   * Every listed command is the lower-cased form of a token of some text:
   * not a stopword, it contains a command marker, and it is at least three
   * characters of [a-z0-9_-] starting with a letter.
   */
  lemma CommandsShape(e: Entities, texts: seq<string>, c: string)
    requires Extracted(e, texts) && c in e.commands
    ensures exists t, tok :: t in texts && tok in Tokens(t) && c == Lower(tok)
    ensures c !in Stopwords && HasMarker(c)
    ensures IsLowered(c) && TokenShape(c)
  {
    CommandsMembers(texts, c);
    var t :| t in texts && c in CommandsIn(t);
    CommandInText(t, c);
  }

  /** Listing, reordering or repeating the sources does not change the entities. */
  lemma ExtractedOrderFree(e1: Entities, e2: Entities, texts1: seq<string>, texts2: seq<string>)
    requires Extracted(e1, texts1) && Extracted(e2, texts2)
    requires forall t :: t in texts1 <==> t in texts2
    ensures e1 == e2
  {
    forall x ensures x in SoftwareOf(texts1) <==> x in SoftwareOf(texts2) {
      SoftwareMembers(texts1, x);
      SoftwareMembers(texts2, x);
    }
    forall x ensures x in CommandsOf(texts1) <==> x in CommandsOf(texts2) {
      CommandsMembers(texts1, x);
      CommandsMembers(texts2, x);
    }
    forall x ensures x in KeywordsOf(texts1) <==> x in KeywordsOf(texts2) {
      KeywordsMembers(texts1, x);
      KeywordsMembers(texts2, x);
    }
    assert SoftwareOf(texts1) == SoftwareOf(texts2);
    assert CommandsOf(texts1) == CommandsOf(texts2);
    assert KeywordsOf(texts1) == KeywordsOf(texts2);
    TopSortedUnique(e1.software, e2.software, SoftwareOf(texts1), MaxSoftware);
    TopSortedUnique(e1.commands, e2.commands, CommandsOf(texts1), MaxCommands);
    TopSortedUnique(e1.keywords, e2.keywords, KeywordsOf(texts1), MaxKeywords);
  }

  // ---------------------------------------------------------------------
  // build_refined_query
  // ---------------------------------------------------------------------

  /** The entity items in the order the query lists them. */
  function Items(e: Entities): (xs: seq<string>)
  {
    e.software + e.commands + e.keywords
  }

  /** Each item preceded by one space. */
  function Spaced(items: seq<string>): (r: string)
    ensures |r| >= |items|
  {
    if items == [] then "" else " " + items[0] + Spaced(items[1..])
  }

  function BuildRefinedQuery(question: string, e: Entities): (r: string)
  {
    Join(" ", [question] + Items(e))
  }

  lemma {:induction false} JoinSpaced(question: string, items: seq<string>)
    ensures Join(" ", [question] + items) == question + Spaced(items)
    decreases |items|
  {
    if items != [] {
      assert ([question] + items)[1..] == [items[0]] + items[1..];
      JoinSpaced(items[0], items[1..]);
    }
  }

  /**
   * The refined query is the question followed by each entity, space
   * separated; it equals the question exactly when no entity was found.
   */
  lemma RefinedQueryShape(question: string, e: Entities)
    ensures BuildRefinedQuery(question, e) == question + Spaced(Items(e))
    ensures StartsWith(BuildRefinedQuery(question, e), question)
    ensures BuildRefinedQuery(question, e) == question <==> Items(e) == []
  {
    JoinSpaced(question, Items(e));
    var r := BuildRefinedQuery(question, e);
    assert r[..|question|] == question;
  }
}
