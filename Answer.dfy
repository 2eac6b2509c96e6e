/**
 * answer_question of api/synthesis.py: the question is classified by a
 * fixed sequence of lower-case substring tests, the evidence is ranked with
 * the branch's keywords, and the answer is built from the first extraction
 * that succeeds, or from a fallback that cites the best-ranked chunk.
 */
module Answer {
  import opened Text
  import opened Records
  import opened Sorting
  import opened Lists
  import opened Extractors
  import opened Synthesis

  // ---------------------------------------------------------------------
  // The branch a question takes
  // ---------------------------------------------------------------------

  /** re.search(r"\bos\b", ql) */
  predicate HasOsWord(ql: string) {
    exists i | 0 <= i <= |ql| :: OsWordAt(ql, i)
  }

  predicate OsWordAt(ql: string, i: nat) {
    && OccursAt(ql, "os", i)
    && (i == 0 || !IsWordChar(ql[i - 1]))
    && (i + 2 == |ql| || !IsWordChar(ql[i + 2]))
  }

  predicate AsksOs(ql: string) {
    Contains(ql, "operating system") || HasOsWord(ql)
  }

  predicate AsksPrinterRestart(ql: string) {
    && (Contains(ql, "enable after a restart") || (Contains(ql, "restart") && Contains(ql, "enable")))
    && Contains(ql, "printer")
  }

  predicate AsksRam(ql: string) {
    Contains(ql, "ram") || Contains(ql, "memory")
  }

  predicate AsksDb2Logs(ql: string) {
    Contains(ql, "db2") && (Contains(ql, "log") || Contains(ql, "logs"))
  }

  predicate AsksShutdown(ql: string) {
    && (Contains(ql, "command") || Contains(ql, "cmd"))
    && (Contains(ql, "shut down") || Contains(ql, "shutdown") || Contains(ql, "stop"))
  }

  datatype Branch = OsSupport | PrinterSetting | RamRequirement | Db2LogSpace | ShutdownCommand | Generic

  /** The first branch whose test the lowered question passes, in the order of the source. */
  function BranchOf(ql: string): Branch {
    if AsksOs(ql) then OsSupport
    else if AsksPrinterRestart(ql) then PrinterSetting
    else if AsksRam(ql) then RamRequirement
    else if AsksDb2Logs(ql) then Db2LogSpace
    else if AsksShutdown(ql) then ShutdownCommand
    else Generic
  }

  /** The tests a question passes and fails to take each branch. */
  predicate Takes(ql: string, b: Branch) {
    match b
    case OsSupport => AsksOs(ql)
    case PrinterSetting => !AsksOs(ql) && AsksPrinterRestart(ql)
    case RamRequirement => !AsksOs(ql) && !AsksPrinterRestart(ql) && AsksRam(ql)
    case Db2LogSpace => !AsksOs(ql) && !AsksPrinterRestart(ql) && !AsksRam(ql) && AsksDb2Logs(ql)
    case ShutdownCommand =>
      !AsksOs(ql) && !AsksPrinterRestart(ql) && !AsksRam(ql) && !AsksDb2Logs(ql) && AsksShutdown(ql)
    case Generic =>
      !AsksOs(ql) && !AsksPrinterRestart(ql) && !AsksRam(ql) && !AsksDb2Logs(ql) && !AsksShutdown(ql)
  }

  /**
   * The branches are tried in a fixed order: a question takes a branch iff
   * it passes that branch's test and fails every earlier one, so exactly
   * one branch is taken.
   */
  lemma BranchOrder(ql: string, b: Branch)
    ensures BranchOf(ql) == b <==> Takes(ql, b)
  {
  }

  // ---------------------------------------------------------------------
  // The fixed texts of each branch
  // ---------------------------------------------------------------------

  /** The keywords each branch ranks the evidence with. */
  function Keywords(b: Branch): seq<string>
    requires !b.Generic?
  {
    match b
    case OsSupport =>
      ["operating system", "linux", "windows", "red hat", "rocky", "suse", "primary server", "application server"]
    case PrinterSetting => ["printer", "enable", "restart", "start", "property"]
    case RamRequirement =>
      ["ram", "memory", "gb", "requirements", "prerequisites", "minimum", "recommended", "hardware", "resources",
       "sizing", "document-level", "document processing", "pdf document support", "primary server"]
    case Db2LogSpace => ["db2", "log", "logs", "gb", "mb", "space"]
    case ShutdownCommand => ["stopaiw", "startaiw", "starting", "stopping", "server"]
  }

  const Product := "RICOH ProcessDirector (RPD)"

  /** The heading line of each branch's answer, without its line break. */
  function Title(b: Branch): string {
    match b
    case OsSupport => "### Operating system support for " + Product
    case PrinterSetting => "### Printer enable-after-restart setting"
    case RamRequirement => "### Primary server RAM requirement"
    case Db2LogSpace => "### DB2 log disk allocation"
    case ShutdownCommand => "### Command to shut down " + Product
    case Generic => "### Answer (grounded)"
  }

  /** The heading followed by a blank line. */
  function Heading(b: Branch): string { Title(b) + "\n\n" }

  /** What the fallback of each branch says when nothing was extracted. */
  function FallbackText(b: Branch): string
    requires !b.Generic?
  {
    match b
    case OsSupport =>
      "I found documentation mentioning operating system support, but I couldn\U{2019}t extract an explicit list "
      + "from the retrieved passages."
    case PrinterSetting =>
      "I could not find an explicit property name/value in the retrieved passages for enabling printers after restart."
    case RamRequirement =>
      "I found related content, but not an explicit RAM requirement line in the retrieved passages."
    case Db2LogSpace => "I could not find an explicit disk-space value for DB2 logs in the retrieved passages."
    case ShutdownCommand =>
      "I found starting/stopping content, but not an explicit shutdown command line in the retrieved passages."
  }

  /** The fallback answer: the heading, the branch's message and the citation of the best chunk. */
  function Fallback(b: Branch, best: seq<Hit>): string
    requires !b.Generic? && best != []
  {
    Heading(b) + FallbackText(b) + "\n\n" + Cite(best[0].chunk) + "\n"
  }

  /** Every title is a line with a visible first and last character. */
  lemma TitleShape(b: Branch)
    ensures Title(b) != [] && Title(b)[0] == '#' && !IsSpace(Title(b)[|Title(b)| - 1])
  {
    var t := Title(b);
    match b
    case OsSupport => assert t[|t| - 1] == Product[|Product| - 1] == ')';
    case PrinterSetting => assert t[|t| - 1] == 'g';
    case RamRequirement => assert t[|t| - 1] == 't';
    case Db2LogSpace => assert t[|t| - 1] == 'n';
    case ShutdownCommand => assert t[|t| - 1] == Product[|Product| - 1] == ')';
    case Generic => assert t[|t| - 1] == ')';
  }

  // ---------------------------------------------------------------------
  // The printer, RAM and DB2 branches: the first chunk with an extraction
  // ---------------------------------------------------------------------

  predicate IsLineBranch(b: Branch) {
    b.PrinterSetting? || b.RamRequirement? || b.Db2LogSpace?
  }

  function ExtractorOf(b: Branch): (x: Extractor)
    requires IsLineBranch(b)
    ensures x.PrinterRestart? || x.Ram? || x.Db2Logs?
  {
    match b
    case PrinterSetting => Extractor.PrinterRestart
    case RamRequirement => Extractor.Ram
    case Db2LogSpace => Extractor.Db2Logs
  }

  /** What extractor x returns on the text of a chunk. */
  function Extracted(x: Extractor, h: Hit): Option<string> {
    FirstPicked(x, SplitLines(h.chunk.text))
  }

  /** `if prop:` on what the extractor returned: present and non-empty, paired with its chunk. */
  function Found(x: Extractor, h: Hit): Option<(string, Hit)> {
    var r := Extracted(x, h);
    if r.Some? && r.value != "" then Some((r.value, h)) else None
  }

  function FoundAll(x: Extractor, best: seq<Hit>): (rs: seq<Option<(string, Hit)>>)
    ensures |rs| == |best|
    ensures forall k :: 0 <= k < |best| ==> rs[k] == Found(x, best[k])
  {
    seq(|best|, k requires 0 <= k < |best| => Found(x, best[k]))
  }

  /** The loop over the ranked chunks that returns on the first extraction. */
  method FirstFound(x: Extractor, best: seq<Hit>) returns (r: Option<(string, Hit)>)
    ensures r == FirstSome(FoundAll(x, best))
  {
    var find := (h: Hit) => Found(x, h);
    r := FirstOf(best, find);
    assert Map(best, find) == FoundAll(x, best);
  }

  /**
   * The loop's result: nothing iff no ranked chunk yields an extraction,
   * and otherwise the extraction of the first chunk that does, with that
   * chunk.
   */
  lemma FirstFoundSpec(x: Extractor, best: seq<Hit>)
    ensures var f := FirstSome(FoundAll(x, best));
      && (f.None? <==> forall k :: 0 <= k < |best| ==> Found(x, best[k]).None?)
      && (f.Some? ==> exists k :: (0 <= k < |best| && f == Found(x, best[k])
            && (forall j :: 0 <= j < k ==> Found(x, best[j]).None?)))
  {
    FirstSomeExact(FoundAll(x, best));
  }

  /** Found pairs a present, non-empty extraction with its own chunk. */
  lemma FoundMeans(x: Extractor, h: Hit)
    ensures Found(x, h).Some? <==> Extracted(x, h).Some? && Extracted(x, h).value != ""
    ensures Found(x, h).Some? ==> Found(x, h).value == (Extracted(x, h).value, h)
  {
  }

  /** The text before the bullet when something was extracted. */
  function Lead(b: Branch): string {
    if b.PrinterSetting? then "Use the documented setting/instruction:\n\n" else ""
  }

  /** The answer of a line branch from the ranked evidence. */
  function LineAnswer(b: Branch, best: seq<Hit>): string
    requires IsLineBranch(b) && best != []
  {
    var f := FirstSome(FoundAll(ExtractorOf(b), best));
    if f.Some? then Heading(b) + Lead(b) + "- " + f.value.0 + " " + Cite(f.value.1.chunk) + "\n"
    else Fallback(b, best)
  }

  method LineBranch(b: Branch, evidence: seq<Hit>) returns (answer: string)
    requires IsLineBranch(b) && evidence != []
    ensures answer == LineAnswer(b, Best(evidence, Keywords(b)))
  {
    var best := PickBest(evidence, Keywords(b));
    BestFromEvidence(evidence, Keywords(b));
    var f := FirstFound(ExtractorOf(b), best);
    if f.Some? {
      var (line, src) := f.value;
      return Heading(b) + Lead(b) + "- " + line + " " + Cite(src.chunk) + "\n";
    }
    answer := Fallback(b, best);
  }

  // ---------------------------------------------------------------------
  // The operating-system branch
  // ---------------------------------------------------------------------

  /** [(ln, h) for ln in lines] */
  function WithSource(lines: seq<string>, h: Hit): (items: seq<(string, Hit)>)
    ensures |items| == |lines|
    ensures forall k :: 0 <= k < |lines| ==> items[k] == (lines[k], h)
  {
    seq(|lines|, k requires 0 <= k < |lines| => (lines[k], h))
  }

  lemma WithSourceSnoc(lines: seq<string>, j: nat, h: Hit)
    requires j < |lines|
    ensures WithSource(lines[..j + 1], h) == WithSource(lines[..j], h) + [(lines[j], h)]
  {
  }

  /** extract_supported_os of a chunk's text. */
  function OsLinesOf(h: Hit, osLine: string -> bool): seq<string> {
    DedupBy(OsCandidates(SplitLines(h.chunk.text), osLine), Lower)
  }

  /** Every OS line of every ranked chunk, paired with its chunk, chunk by chunk. */
  function OsItems(best: seq<Hit>, osLine: string -> bool): seq<(string, Hit)> {
    if best == [] then []
    else OsItems(best[..|best| - 1], osLine) + WithSource(OsLinesOf(best[|best| - 1], osLine), best[|best| - 1])
  }

  lemma OsItemsStep(best: seq<Hit>, i: nat, osLine: string -> bool)
    requires i < |best|
    ensures OsItems(best[..i + 1], osLine) == OsItems(best[..i], osLine) + WithSource(OsLinesOf(best[i], osLine), best[i])
  {
    assert best[..i + 1][..i] == best[..i];
  }

  /** The nested loop collecting `extracted`. */
  method CollectOsItems(best: seq<Hit>, osLine: string -> bool) returns (extracted: seq<(string, Hit)>)
    ensures extracted == OsItems(best, osLine)
  {
    extracted := [];
    for i := 0 to |best|
      invariant extracted == OsItems(best[..i], osLine)
    {
      var chunk := best[i];
      var lines := ExtractSupportedOs(chunk.chunk.text, osLine);
      ghost var before := extracted;
      for j := 0 to |lines|
        invariant extracted == before + WithSource(lines[..j], chunk)
      {
        WithSourceSnoc(lines, j, chunk);
        extracted := extracted + [(lines[j], chunk)];
      }
      assert lines[..|lines|] == lines;
      OsItemsStep(best, i, osLine);
    }
    assert best[..|best|] == best;
  }

  /** An item is extracted iff its line is an OS line of its chunk and the chunk is ranked. */
  lemma WithSourceExact(lines: seq<string>, h: Hit, item: (string, Hit))
    ensures item in WithSource(lines, h) <==> item.1 == h && item.0 in lines
  {
    var w := WithSource(lines, h);
    if item in w {
      var k :| 0 <= k < |w| && w[k] == item;
    }
    if item.1 == h && item.0 in lines {
      var k :| 0 <= k < |lines| && lines[k] == item.0;
      assert w[k] == item;
    }
  }

  lemma OsItemsLast(best: seq<Hit>, osLine: string -> bool, item: (string, Hit))
    requires best != []
    ensures item in OsItems(best, osLine) <==>
      item in OsItems(best[..|best| - 1], osLine) || (item.1 == best[|best| - 1] && item.0 in OsLinesOf(best[|best| - 1], osLine))
  {
    WithSourceExact(OsLinesOf(best[|best| - 1], osLine), best[|best| - 1], item);
  }

  lemma InLast<T>(xs: seq<T>, y: T)
    requires xs != []
    ensures y in xs <==> y in xs[..|xs| - 1] || y == xs[|xs| - 1]
  {
    assert xs == xs[..|xs| - 1] + [xs[|xs| - 1]];
  }

  lemma {:induction false} OsItemsExact(best: seq<Hit>, osLine: string -> bool, item: (string, Hit))
    ensures item in OsItems(best, osLine) <==> item.1 in best && item.0 in OsLinesOf(item.1, osLine)
  {
    if best != [] {
      var init := best[..|best| - 1];
      OsItemsExact(init, osLine, item);
      OsItemsLast(best, osLine, item);
      InLast(best, item.1);
    }
  }

  /** [(ln, src) for (ln, src) in items if is_windows_os_line(ln) == windows] */
  function ByWindows(items: seq<(string, Hit)>, windows: bool): seq<(string, Hit)> {
    if items == [] then []
    else
      var last := items[|items| - 1];
      ByWindows(items[..|items| - 1], windows) + (if IsWindowsOsLine(last.0) == windows then [last] else [])
  }

  lemma {:induction false} ByWindowsExact(items: seq<(string, Hit)>, windows: bool, item: (string, Hit))
    ensures item in ByWindows(items, windows) <==> item in items && IsWindowsOsLine(item.0) == windows
  {
    if items != [] {
      var init := items[..|items| - 1];
      ByWindowsExact(init, windows, item);
      assert items == init + [items[|items| - 1]];
    }
  }

  /** Every extracted item goes to exactly one of the two lists. */
  lemma ByWindowsSplit(items: seq<(string, Hit)>)
    requires items != []
    ensures ByWindows(items, false) != [] || ByWindows(items, true) != []
  {
    ByWindowsExact(items, IsWindowsOsLine(items[0].0), items[0]);
  }

  const LinuxHeader := "**Primary server (base product): Linux**\n"
  const WindowsHeader := "**Application server (optional): Windows**\n"

  /** The title part, then each section that has lines: its header and its bullets. */
  function Layout(head: string, hasLinux: bool, linux: string, hasWin: bool, win: string): seq<string> {
    [head] + (if hasLinux then [LinuxHeader, linux] else []) + (if hasWin then [WindowsHeader, win] else [])
  }

  lemma LayoutAt(head: string, hasLinux: bool, linux: string, hasWin: bool, win: string)
    ensures Layout(head, hasLinux, linux, hasWin, win)[0] == head
    ensures hasLinux ==> Layout(head, hasLinux, linux, hasWin, win)[2] == linux
    ensures hasWin ==> (|Layout(head, hasLinux, linux, hasWin, win)| > (if hasLinux then 4 else 2)
      && Layout(head, hasLinux, linux, hasWin, win)[if hasLinux then 4 else 2] == win)
  {
  }

  /** The parts joined into the OS answer. */
  function OsParts(items: seq<(string, Hit)>): seq<string> {
    var linux := ByWindows(items, false);
    var win := ByWindows(items, true);
    Layout(Title(OsSupport) + "\n", linux != [], Bullets(linux) + "\n", win != [], Bullets(win) + "\n")
  }

  /** The OS answer built from the extracted lines. */
  function OsReport(items: seq<(string, Hit)>): string {
    Strip(Join("\n", OsParts(items))) + "\n"
  }

  /** The OS answer from the ranked evidence. */
  function OsAnswer(best: seq<Hit>, osLine: string -> bool): string
    requires best != []
  {
    var extracted := OsItems(best, osLine);
    if extracted != [] then OsReport(extracted) else Fallback(OsSupport, best)
  }

  /** The Linux and Windows sections, each only when it has lines. */
  method BuildOsReport(extracted: seq<(string, Hit)>) returns (answer: string)
    ensures answer == OsReport(extracted)
  {
    var linux := ByWindows(extracted, false);
    var win := ByWindows(extracted, true);
    var parts := [Title(OsSupport) + "\n"];
    if linux != [] {
      var bullets := FormatBulletsWithCitations(linux);
      parts := parts + [LinuxHeader, bullets + "\n"];
    }
    if win != [] {
      var bullets := FormatBulletsWithCitations(win);
      parts := parts + [WindowsHeader, bullets + "\n"];
    }
    assert parts == OsParts(extracted);
    answer := Strip(Join("\n", parts)) + "\n";
  }

  method OsBranch(evidence: seq<Hit>, osLine: string -> bool) returns (answer: string)
    requires evidence != []
    ensures answer == OsAnswer(Best(evidence, Keywords(OsSupport)), osLine)
  {
    var best := PickBest(evidence, Keywords(OsSupport));
    BestFromEvidence(evidence, Keywords(OsSupport));
    var extracted := CollectOsItems(best, osLine);
    if extracted != [] {
      answer := BuildOsReport(extracted);
    } else {
      answer := Fallback(OsSupport, best);
    }
  }

  // ---------------------------------------------------------------------
  // The shutdown-command branch
  // ---------------------------------------------------------------------

  /** The non-empty shutdown commands of the ranked chunks, with their chunks, in rank order. */
  function Commands(best: seq<Hit>): seq<(string, Hit)> {
    Present(FoundAll(Extractor.Shutdown, best))
  }

  /** Commands are de-duplicated on their lowered text. */
  function CommandKey(item: (string, Hit)): string {
    Lower(item.0)
  }

  function CommandBullet(item: (string, Hit)): string {
    "- `" + item.0 + "` " + Cite(item.1.chunk)
  }

  /** One bullet per distinct command, each cited to the chunk it came from. */
  function CommandLines(found: seq<(string, Hit)>): seq<string> {
    Map(DedupBy(found, CommandKey), CommandBullet)
  }

  function ShutdownAnswer(best: seq<Hit>): string
    requires best != []
  {
    var found := Commands(best);
    if found != [] then Heading(ShutdownCommand) + Join("\n", CommandLines(found)) + "\n"
    else Fallback(ShutdownCommand, best)
  }

  method ShutdownBranch(evidence: seq<Hit>) returns (answer: string)
    requires evidence != []
    ensures answer == ShutdownAnswer(Best(evidence, Keywords(ShutdownCommand)))
  {
    var best := PickBest(evidence, Keywords(ShutdownCommand));
    BestFromEvidence(evidence, Keywords(ShutdownCommand));
    var find := (h: Hit) => Found(Extractor.Shutdown, h);
    var found := AllOf(best, find);
    assert Map(best, find) == FoundAll(Extractor.Shutdown, best);
    if found != [] {
      var lines := DedupMap(found, CommandKey, CommandBullet);
      answer := Heading(ShutdownCommand) + Join("\n", lines) + "\n";
    } else {
      answer := Fallback(ShutdownCommand, best);
    }
  }

  /** A command is collected iff some ranked chunk yields exactly it. */
  lemma CommandsExact(best: seq<Hit>, item: (string, Hit))
    ensures item in Commands(best) <==> exists k :: 0 <= k < |best| && Found(Extractor.Shutdown, best[k]) == Some(item)
  {
    PresentExact(FoundAll(Extractor.Shutdown, best), item);
  }

  /**
   * The bullets: one per distinct lowered command, each the first collected
   * occurrence of that command with its chunk.
   */
  lemma CommandLinesFacts(found: seq<(string, Hit)>)
    ensures |CommandLines(found)| == |Keys(found, CommandKey)|
    ensures forall k :: 0 <= k < |CommandLines(found)| ==>
      exists i :: (0 <= i < |found| && CommandLines(found)[k] == CommandBullet(found[i])
        && (forall j :: 0 <= j < i ==> Lower(found[j].0) != Lower(found[i].0)))
  {
    MapDedupFacts(found, CommandKey, CommandBullet);
    var lines := CommandLines(found);
    forall k | 0 <= k < |lines|
      ensures exists i :: (0 <= i < |found| && lines[k] == CommandBullet(found[i])
        && (forall j :: 0 <= j < i ==> Lower(found[j].0) != Lower(found[i].0)))
    {
      var i :| 0 <= i < |found| && lines[k] == CommandBullet(found[i]) && FirstOfKey(found, i, CommandKey);
      assert forall j :: 0 <= j < i ==> CommandKey(found[j]) != CommandKey(found[i]);
    }
  }

  // ---------------------------------------------------------------------
  // The generic branch
  // ---------------------------------------------------------------------

  /** The first eight alphanumeric words of the question longer than three characters. */
  function QueryTerms(q: string): (terms: seq<string>)
  {
    var ws := LongerThan(AlnumWords(q), 3);
    ws[..Min(8, |ws|)]
  }

  lemma QueryTermsFacts(q: string)
    ensures |QueryTerms(q)| <= 8
    ensures forall w :: w in QueryTerms(q) ==> AlnumWord(w) && |w| > 3 && Contains(q, w)
  {
    var ws := LongerThan(AlnumWords(q), 3);
    AlnumWordsFacts(q);
    forall w | w in QueryTerms(q) ensures AlnumWord(w) && |w| > 3 && Contains(q, w) {
      assert w in ws;
      LongerThanExact(AlnumWords(q), 3, w);
    }
  }

  /** `- doc p.start-end (chunk id)` */
  function SourceLine(h: Hit): string {
    var c := h.chunk;
    "- " + DocLabel(c.docName) + " p." + ShowNat(c.pageStart) + "-" + ShowNat(c.pageEnd)
      + " (chunk " + c.chunkId + ")"
  }

  const GenericIntro := "I found relevant documentation, but this question needs a more specific extractor to produce a clean one-shot answer.\n"
    + "For now, here are the top supporting passages used:\n\n"

  /** The generic answer lists the top three ranked chunks and cites the first. */
  function GenericAnswer(best: seq<Hit>): string
    requires best != []
  {
    var top := best[..Min(3, |best|)];
    Heading(Generic) + GenericIntro + Join("\n", Map(top, SourceLine)) + "\n\n" + Cite(top[0].chunk) + "\n"
  }

  // ---------------------------------------------------------------------
  // answer_question
  // ---------------------------------------------------------------------

  /** The keywords the evidence is ranked with: the branch's, or the question's own terms. */
  function RankKeywords(b: Branch, q: string): seq<string> {
    if b.Generic? then QueryTerms(q) else Keywords(b)
  }

  /** The answer of branch b from the ranked evidence. */
  function BranchAnswer(b: Branch, best: seq<Hit>, osLine: string -> bool): string
    requires best != []
  {
    match b
    case OsSupport => OsAnswer(best, osLine)
    case ShutdownCommand => ShutdownAnswer(best)
    case Generic => GenericAnswer(best)
    case _ => LineAnswer(b, best)
  }

  /** answer_question(question, evidence) with OS_LINE_RE as osLine. */
  function AnswerOf(question: string, evidence: seq<Hit>, osLine: string -> bool): string
    requires evidence != []
  {
    var q := Strip(question);
    var b := BranchOf(Lower(q));
    var kw := RankKeywords(b, q);
    BestFromEvidence(evidence, kw);
    BranchAnswer(b, Best(evidence, kw), osLine)
  }

  /** The answer is that of the branch the question takes. */
  lemma AnswerOfBranch(question: string, evidence: seq<Hit>, osLine: string -> bool, b: Branch)
    requires evidence != [] && BranchOf(Lower(Strip(question))) == b
    ensures !b.Generic? ==> Best(evidence, Keywords(b)) != []
    ensures Best(evidence, QueryTerms(Strip(question))) != []
    ensures b.OsSupport? ==> AnswerOf(question, evidence, osLine) == OsAnswer(Best(evidence, Keywords(b)), osLine)
    ensures IsLineBranch(b) ==> AnswerOf(question, evidence, osLine) == LineAnswer(b, Best(evidence, Keywords(b)))
    ensures b.ShutdownCommand? ==> AnswerOf(question, evidence, osLine) == ShutdownAnswer(Best(evidence, Keywords(b)))
    ensures b.Generic? ==> AnswerOf(question, evidence, osLine) == GenericAnswer(Best(evidence, QueryTerms(Strip(question))))
  {
    BestFromEvidence(evidence, QueryTerms(Strip(question)));
    if !b.Generic? {
      BestFromEvidence(evidence, Keywords(b));
    }
  }

  method AnswerQuestion(question: string, evidence: seq<Hit>, osLine: string -> bool) returns (answer: string)
    requires evidence != []
    ensures answer == AnswerOf(question, evidence, osLine)
  {
    var q := Strip(question);
    var ql := Lower(q);
    if AsksOs(ql) {
      AnswerOfBranch(question, evidence, osLine, OsSupport);
      answer := OsBranch(evidence, osLine);
      return;
    }
    if AsksPrinterRestart(ql) {
      AnswerOfBranch(question, evidence, osLine, PrinterSetting);
      answer := LineBranch(PrinterSetting, evidence);
      return;
    }
    if AsksRam(ql) {
      AnswerOfBranch(question, evidence, osLine, RamRequirement);
      answer := LineBranch(RamRequirement, evidence);
      return;
    }
    if AsksDb2Logs(ql) {
      AnswerOfBranch(question, evidence, osLine, Db2LogSpace);
      answer := LineBranch(Db2LogSpace, evidence);
      return;
    }
    if AsksShutdown(ql) {
      AnswerOfBranch(question, evidence, osLine, ShutdownCommand);
      answer := ShutdownBranch(evidence);
      return;
    }
    AnswerOfBranch(question, evidence, osLine, Generic);
    var best := PickBest(evidence, QueryTerms(q));
    answer := GenericAnswer(best);
  }

  // ---------------------------------------------------------------------
  // What every answer looks like
  // ---------------------------------------------------------------------

  /** Text after a heading keeps the title at the head. */
  lemma HeadingFirst(b: Branch, x: string)
    ensures StartsWith(Heading(b) + x, Title(b))
  {
    StartsWithConcat(Title(b), "\n\n");
    StartsWithMore(Heading(b), Title(b), x);
  }

  lemma FallbackTitled(b: Branch, best: seq<Hit>)
    requires !b.Generic? && best != []
    ensures StartsWith(Fallback(b, best), Title(b))
    ensures Contains(Fallback(b, best), Cite(best[0].chunk))
  {
    var c := Cite(best[0].chunk);
    HeadingFirst(b, FallbackText(b));
    StartsWithMore(Heading(b) + FallbackText(b), Title(b), "\n\n");
    StartsWithMore(Heading(b) + FallbackText(b) + "\n\n", Title(b), c);
    StartsWithMore(Heading(b) + FallbackText(b) + "\n\n" + c, Title(b), "\n");
    ContainsInConcat(Heading(b) + FallbackText(b) + "\n\n", c, "\n");
  }

  /** The bullet of a line branch keeps the title at the head and cites its chunk. */
  lemma LineBulletShape(b: Branch, v: string, c: string)
    ensures StartsWith(Heading(b) + Lead(b) + "- " + v + " " + c + "\n", Title(b))
    ensures Contains(Heading(b) + Lead(b) + "- " + v + " " + c + "\n", c)
  {
    var t := Title(b);
    HeadingFirst(b, Lead(b));
    StartsWithMore(Heading(b) + Lead(b), t, "- ");
    StartsWithMore(Heading(b) + Lead(b) + "- ", t, v);
    StartsWithMore(Heading(b) + Lead(b) + "- " + v, t, " ");
    StartsWithMore(Heading(b) + Lead(b) + "- " + v + " ", t, c);
    StartsWithMore(Heading(b) + Lead(b) + "- " + v + " " + c, t, "\n");
    ContainsInConcat(Heading(b) + Lead(b) + "- " + v + " ", c, "\n");
  }

  /** A line branch states at its head which branch it is and cites a ranked chunk. */
  lemma LineAnswerShape(b: Branch, best: seq<Hit>)
    requires IsLineBranch(b) && best != []
    ensures StartsWith(LineAnswer(b, best), Title(b))
    ensures exists h :: h in best && Contains(LineAnswer(b, best), Cite(h.chunk))
  {
    var x := ExtractorOf(b);
    var f := FirstSome(FoundAll(x, best));
    if f.Some? {
      FirstFoundSpec(x, best);
      var k :| 0 <= k < |best| && f == Found(x, best[k]);
      FoundMeans(x, best[k]);
      LineBulletShape(b, f.value.0, Cite(f.value.1.chunk));
      assert best[k] in best;
    } else {
      FallbackTitled(b, best);
      assert best[0] in best;
    }
  }

  lemma ShutdownAnswerShape(best: seq<Hit>)
    requires best != []
    ensures StartsWith(ShutdownAnswer(best), Title(ShutdownCommand))
    ensures exists h :: h in best && Contains(ShutdownAnswer(best), Cite(h.chunk))
  {
    var found := Commands(best);
    if found != [] {
      var j := Join("\n", CommandLines(found));
      HeadingFirst(ShutdownCommand, j);
      StartsWithMore(Heading(ShutdownCommand) + j, Title(ShutdownCommand), "\n");
      forall k | 0 <= k < |found| ensures Contains(CommandBullet(found[k]), SourceCite(found[k])) {
        ContainsSelf(Cite(found[k].1.chunk));
        ContainsRight("- `" + found[k].0 + "` ", Cite(found[k].1.chunk), Cite(found[k].1.chunk));
      }
      DedupJoinContains(found, CommandKey, CommandBullet, SourceCite);
      var y :| y in found && Contains(j, SourceCite(y));
      CommandsExact(best, y);
      var k :| 0 <= k < |best| && Found(Extractor.Shutdown, best[k]) == Some(y);
      FoundMeans(Extractor.Shutdown, best[k]);
      ContainsRight(Heading(ShutdownCommand), j, Cite(best[k].chunk));
      ContainsLeft(Heading(ShutdownCommand) + j, "\n", Cite(best[k].chunk));
      assert best[k] in best;
    } else {
      FallbackTitled(ShutdownCommand, best);
      assert best[0] in best;
    }
  }

  lemma GenericAnswerShape(best: seq<Hit>)
    requires best != []
    ensures StartsWith(GenericAnswer(best), Title(Generic))
    ensures Contains(GenericAnswer(best), Cite(best[0].chunk))
  {
    var top := best[..Min(3, |best|)];
    var t := Title(Generic);
    var j := Join("\n", Map(top, SourceLine));
    var c := Cite(top[0].chunk);
    HeadingFirst(Generic, GenericIntro);
    StartsWithMore(Heading(Generic) + GenericIntro, t, j);
    StartsWithMore(Heading(Generic) + GenericIntro + j, t, "\n\n");
    StartsWithMore(Heading(Generic) + GenericIntro + j + "\n\n", t, c);
    StartsWithMore(Heading(Generic) + GenericIntro + j + "\n\n" + c, t, "\n");
    ContainsInConcat(Heading(Generic) + GenericIntro + j + "\n\n", c, "\n");
  }

  /** The OS report starts with its title. */
  lemma OsReportTitled(items: seq<(string, Hit)>)
    ensures StartsWith(OsReport(items), Title(OsSupport))
  {
    var t := Title(OsSupport);
    var parts := OsParts(items);
    var j := Join("\n", parts);
    JoinHead("\n", parts);
    StartsWithConcat(t, "\n");
    StartsWithTrans(j, t + "\n", t);
    TitleShape(OsSupport);
    StripKeepsPrefix(j, t);
    StartsWithMore(Strip(j), t, "\n");
  }

  /** A part of the OS report that survives into it. */
  lemma OsReportHas(items: seq<(string, Hit)>, k: nat, c: Chunk)
    requires k < |OsParts(items)| && Contains(OsParts(items)[k], Cite(c))
    ensures Contains(OsReport(items), Cite(c))
  {
    var j := Join("\n", OsParts(items));
    ContainsJoin("\n", OsParts(items), k, Cite(c));
    CiteEnds(c);
    ContainsStrip(j, Cite(c));
    ContainsLeft(Strip(j), "\n", Cite(c));
  }

  /** Where the two bullet lists sit among the parts. */
  lemma OsPartsAt(items: seq<(string, Hit)>, w: bool)
    requires ByWindows(items, w) != []
    ensures var k := if w && ByWindows(items, false) != [] then 4 else 2;
      k < |OsParts(items)| && OsParts(items)[k] == Bullets(ByWindows(items, w)) + "\n"
  {
    var linux := ByWindows(items, false);
    var win := ByWindows(items, true);
    LayoutAt(Title(OsSupport) + "\n", linux != [], Bullets(linux) + "\n", win != [], Bullets(win) + "\n");
  }

  /** The OS report cites the chunk of one of the extracted lines. */
  lemma OsReportCites(items: seq<(string, Hit)>)
    requires items != []
    ensures exists item :: item in items && Contains(OsReport(items), Cite(item.1.chunk))
  {
    ByWindowsSplit(items);
    var linux := ByWindows(items, false);
    var win := ByWindows(items, true);
    var w := linux == [];
    var l := ByWindows(items, w);
    BulletsCite(l);
    var item :| item in l && Contains(Bullets(l), Cite(item.1.chunk));
    ContainsLeft(Bullets(l), "\n", Cite(item.1.chunk));
    var k := if w && linux != [] then 4 else 2;
    OsPartsAt(items, w);
    OsReportHas(items, k, item.1.chunk);
    ByWindowsExact(items, w, item);
  }

  /** The report cites a ranked chunk. */
  lemma OsReportCitesRanked(best: seq<Hit>, osLine: string -> bool)
    requires OsItems(best, osLine) != []
    ensures exists h :: h in best && Contains(OsReport(OsItems(best, osLine)), Cite(h.chunk))
  {
    var extracted := OsItems(best, osLine);
    OsReportCites(extracted);
    var item :| item in extracted && Contains(OsReport(extracted), Cite(item.1.chunk));
    OsItemsExact(best, osLine, item);
  }

  lemma OsAnswerShape(best: seq<Hit>, osLine: string -> bool)
    requires best != []
    ensures StartsWith(OsAnswer(best, osLine), Title(OsSupport))
    ensures exists h :: h in best && Contains(OsAnswer(best, osLine), Cite(h.chunk))
  {
    var extracted := OsItems(best, osLine);
    if extracted != [] {
      OsReportTitled(extracted);
      OsReportCitesRanked(best, osLine);
    } else {
      FallbackTitled(OsSupport, best);
      assert best[0] in best;
    }
  }

  /** Every answer opens with the title of the branch its question takes. */
  lemma AnswerTitled(question: string, evidence: seq<Hit>, osLine: string -> bool)
    requires evidence != []
    ensures StartsWith(AnswerOf(question, evidence, osLine), Title(BranchOf(Lower(Strip(question)))))
  {
    AnswerCites(question, evidence, osLine);
  }

  /** Every answer cites at least one chunk of the evidence it was given. */
  lemma AnswerCitesEvidence(question: string, evidence: seq<Hit>, osLine: string -> bool)
    requires evidence != []
    ensures exists h :: h in evidence && Contains(AnswerOf(question, evidence, osLine), Cite(h.chunk))
  {
    AnswerCites(question, evidence, osLine);
  }

  lemma AnswerCites(question: string, evidence: seq<Hit>, osLine: string -> bool)
    requires evidence != []
    ensures StartsWith(AnswerOf(question, evidence, osLine), Title(BranchOf(Lower(Strip(question)))))
    ensures exists h :: h in evidence && Contains(AnswerOf(question, evidence, osLine), Cite(h.chunk))
  {
    var q := Strip(question);
    var b := BranchOf(Lower(q));
    var kw := RankKeywords(b, q);
    AnswerOfBranch(question, evidence, osLine, b);
    BestFromEvidence(evidence, kw);
    var best := Best(evidence, kw);
    var a := AnswerOf(question, evidence, osLine);
    if b.OsSupport? {
      OsAnswerShape(best, osLine);
    } else if b.ShutdownCommand? {
      ShutdownAnswerShape(best);
    } else if b.Generic? {
      GenericAnswerShape(best);
      assert best[0] in best;
    } else {
      LineAnswerShape(b, best);
    }
    var h :| h in best && Contains(a, Cite(h.chunk));
    assert h in evidence;
  }
}
