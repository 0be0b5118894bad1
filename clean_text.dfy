/** The clean-text export of `extract_clean_text` (utiles/process_pdf.py):
    the stripped text of every span the classifier keeps, joined by single
    spaces per line, lines joined by newlines, each page with kept text
    introduced by a `--- Page n ---` header, and the whole result stripped. */
module CleanText {
  import opened Text
  import opened PageModel
  import opened Classifier

  /** The classifier's verdict on a span whose stripped text is non-empty:
      kept when `should_remove_text` says no. */
  predicate SpanKept(s: Span, pageArea: real) {
    !ShouldRemoveText(Strip(s.text), s.size, s.flags, Area(s.bbox), pageArea)
  }

  /** The keep decision on a page of the given area. */
  function KeptOn(pageArea: real): Span -> bool {
    s => SpanKept(s, pageArea)
  }

  /** The words of one line: the stripped text of each span that is not
      blank and that `keep` accepts, in span order. */
  function LineWords(spans: seq<Span>, keep: Span -> bool): (ws: seq<string>)
    ensures |ws| <= |spans|
  {
    if spans == [] then []
    else
      var s := spans[|spans| - 1];
      var t := Strip(s.text);
      LineWords(spans[..|spans| - 1], keep) + (if t != [] && keep(s) then [t] else [])
  }

  /** The lines of one text block: each line with at least one word becomes
      its words joined by single spaces; lines without words are dropped. */
  function BlockLines(lines: seq<seq<Span>>, keep: Span -> bool): seq<string> {
    if lines == [] then []
    else
      var ws := LineWords(lines[|lines| - 1], keep);
      BlockLines(lines[..|lines| - 1], keep) + (if ws != [] then [Join(ws, " ")] else [])
  }

  /** The lines of a page: those of its text blocks in order; other blocks
      contribute nothing. */
  function PageLines(blocks: seq<Block>, keep: Span -> bool): seq<string> {
    if blocks == [] then []
    else
      PageLines(blocks[..|blocks| - 1], keep)
      + match blocks[|blocks| - 1]
        case TextBlock(lines) => BlockLines(lines, keep)
        case OtherBlock => []
  }

  /** The kept lines of a page. */
  function KeptLines(p: Page): seq<string> {
    PageLines(p.blocks, KeptOn(PageArea(p)))
  }

  /** The kept lines of every page, page by page. */
  function AllKeptLines(pages: seq<Page>): (ls: seq<seq<string>>)
    ensures |ls| == |pages|
  {
    seq(|pages|, i requires 0 <= i < |pages| => KeptLines(pages[i]))
  }

  /** The header that introduces page number `n` (1-based). */
  function PageHeader(n: nat): string {
    "\n--- Page " + NatToString(n) + " ---\n"
  }

  /** The text of one page: its header, its lines joined by newlines, and a
      final newline. */
  function PageSection(n: nat, lines: seq<string>): string {
    PageHeader(n) + Join(lines, "\n") + "\n"
  }

  /** The accumulated text before the final strip, from the lines of each
      page: pages in order, pages without lines left out. The last entry is
      page number `|pageLines|`. */
  function Layout(pageLines: seq<seq<string>>): string {
    if pageLines == [] then ""
    else
      var lines := pageLines[|pageLines| - 1];
      Layout(pageLines[..|pageLines| - 1]) + (if lines != [] then PageSection(|pageLines|, lines) else "")
  }

  /** `extract_clean_text`'s result. */
  function CleanText(pages: seq<Page>): string {
    Strip(Layout(AllKeptLines(pages)))
  }

  // ---------------------------------------------------------------- words and lines

  /** Every word of a line is the stripped, non-blank text of a span of
      that line that `keep` accepts. */
  lemma {:induction false} LineWordHasSource(spans: seq<Span>, keep: Span -> bool, w: string) returns (k: nat)
    requires w in LineWords(spans, keep)
    ensures k < |spans| && keep(spans[k]) && Strip(spans[k].text) == w
  {
    var n := |spans| - 1;
    var t := Strip(spans[n].text);
    if t != [] && keep(spans[n]) && w == t {
      k := n;
    } else {
      k := LineWordHasSource(spans[..n], keep, w);
      assert spans[..n][k] == spans[k];
    }
  }

  /** Every accepted span with non-blank text gives a word of its line. */
  lemma {:induction false} KeptSpanHasWord(spans: seq<Span>, keep: Span -> bool, k: nat)
    requires k < |spans| && Strip(spans[k].text) != [] && keep(spans[k])
    ensures Strip(spans[k].text) in LineWords(spans, keep)
  {
    var n := |spans| - 1;
    if k < n {
      assert spans[..n][k] == spans[k];
      KeptSpanHasWord(spans[..n], keep, k);
    }
  }

  /** The words of a prefix of a line are a prefix of the line's words. */
  lemma {:induction false} LineWordsPrefix(spans: seq<Span>, keep: Span -> bool, m: nat)
    requires m <= |spans|
    ensures LineWords(spans[..m], keep) <= LineWords(spans, keep)
  {
    if m < |spans| {
      var n := |spans| - 1;
      assert spans[..n][..m] == spans[..m];
      LineWordsPrefix(spans[..n], keep, m);
      PrefixTrans(LineWords(spans[..m], keep), LineWords(spans[..n], keep), LineWords(spans, keep));
    } else {
      assert spans[..m] == spans;
    }
  }

  lemma PrefixTrans(a: seq<string>, b: seq<string>, c: seq<string>)
    requires a <= b && b <= c
    ensures a <= c
  {
  }

  /** One more span adds at most its own word. */
  lemma LineWordsNext(spans: seq<Span>, keep: Span -> bool, k: nat)
    requires k < |spans|
    ensures LineWords(spans[..k + 1], keep)
            == LineWords(spans[..k], keep) + (if Strip(spans[k].text) != [] && keep(spans[k]) then [Strip(spans[k].text)] else [])
  {
    assert spans[..k + 1][..k] == spans[..k];
  }

  /** An accepted span with non-blank text gives the word right after the
      words of the spans before it. */
  lemma LineWordAt(spans: seq<Span>, keep: Span -> bool, k: nat)
    requires k < |spans| && Strip(spans[k].text) != [] && keep(spans[k])
    ensures |LineWords(spans[..k], keep)| < |LineWords(spans, keep)|
    ensures LineWords(spans, keep)[|LineWords(spans[..k], keep)|] == Strip(spans[k].text)
  {
    LineWordsNext(spans, keep, k);
    LineWordsPrefix(spans, keep, k + 1);
  }

  /** Accepted spans give their words in span order: a span before another
      gives a word before the other's. */
  lemma LineWordsInOrder(spans: seq<Span>, keep: Span -> bool, j: nat, k: nat) returns (a: nat, b: nat)
    requires j < k < |spans|
    requires Strip(spans[j].text) != [] && keep(spans[j])
    requires Strip(spans[k].text) != [] && keep(spans[k])
    ensures a < b < |LineWords(spans, keep)|
    ensures LineWords(spans, keep)[a] == Strip(spans[j].text)
    ensures LineWords(spans, keep)[b] == Strip(spans[k].text)
  {
    LineWordAt(spans, keep, j);
    LineWordAt(spans, keep, k);
    a := |LineWords(spans[..j], keep)|;
    b := |LineWords(spans[..k], keep)|;
    LineWordsNext(spans, keep, j);
    assert spans[..k][..j + 1] == spans[..j + 1];
    LineWordsPrefix(spans[..k], keep, j + 1);
  }

  /** A span gives a word when its stripped text is non-blank and `keep`
      accepts it. */
  predicate GivesWord(s: Span, keep: Span -> bool) {
    Strip(s.text) != [] && keep(s)
  }

  /** Some span of the line gives a word. */
  predicate LineHasWord(spans: seq<Span>, keep: Span -> bool) {
    exists k :: 0 <= k < |spans| && GivesWord(spans[k], keep)
  }

  /** Some line of the block has a span that gives a word. */
  predicate BlockHasWord(lines: seq<seq<Span>>, keep: Span -> bool) {
    exists l :: 0 <= l < |lines| && LineHasWord(lines[l], keep)
  }

  /** Some text block of the page has a span that gives a word. */
  predicate PageHasWord(blocks: seq<Block>, keep: Span -> bool) {
    exists b :: 0 <= b < |blocks| && blocks[b].TextBlock? && BlockHasWord(blocks[b].lines, keep)
  }

  /** A line has words exactly when one of its spans gives a word. */
  lemma LineWordsNonEmpty(spans: seq<Span>, keep: Span -> bool)
    ensures LineWords(spans, keep) != [] <==> LineHasWord(spans, keep)
  {
    if LineWords(spans, keep) != [] {
      LineWordsSolid(spans, keep);
      var k := LineWordHasSource(spans, keep, LineWords(spans, keep)[0]);
      assert GivesWord(spans[k], keep);
    }
    if LineHasWord(spans, keep) {
      var k :| 0 <= k < |spans| && GivesWord(spans[k], keep);
      KeptSpanHasWord(spans, keep, k);
    }
  }

  /** A block has lines exactly when one of its spans gives a word. */
  lemma {:induction false} BlockLinesNonEmpty(lines: seq<seq<Span>>, keep: Span -> bool)
    ensures BlockLines(lines, keep) != [] <==> BlockHasWord(lines, keep)
  {
    if lines != [] {
      var n := |lines| - 1;
      var init := lines[..n];
      BlockLinesNonEmpty(init, keep);
      LineWordsNonEmpty(lines[n], keep);
      if BlockHasWord(init, keep) {
        var l :| 0 <= l < |init| && LineHasWord(init[l], keep);
        assert lines[l] == init[l];
      }
      if BlockHasWord(lines, keep) && !LineHasWord(lines[n], keep) {
        var l :| 0 <= l < |lines| && LineHasWord(lines[l], keep);
        assert init[l] == lines[l];
      }
    }
  }

  /** A page has lines exactly when a span of one of its text blocks gives
      a word. */
  lemma {:induction false} PageLinesNonEmpty(blocks: seq<Block>, keep: Span -> bool)
    ensures PageLines(blocks, keep) != [] <==> PageHasWord(blocks, keep)
  {
    if blocks != [] {
      var n := |blocks| - 1;
      var init := blocks[..n];
      PageLinesNonEmpty(init, keep);
      var last := blocks[n];
      var lastHas := last.TextBlock? && BlockHasWord(last.lines, keep);
      if last.TextBlock? {
        BlockLinesNonEmpty(last.lines, keep);
      }
      assert PageLines(blocks, keep) != [] <==> PageLines(init, keep) != [] || lastHas;
      if PageHasWord(init, keep) {
        var b :| 0 <= b < |init| && init[b].TextBlock? && BlockHasWord(init[b].lines, keep);
        assert blocks[b] == init[b];
      }
      if PageHasWord(blocks, keep) && !lastHas {
        var b :| 0 <= b < |blocks| && blocks[b].TextBlock? && BlockHasWord(blocks[b].lines, keep);
        assert init[b] == blocks[b];
      }
    }
  }

  /** A page has some span, in some line of some text block, whose stripped
      text is non-blank and which the classifier keeps. */
  predicate HasKeptSpan(p: Page) {
    exists b, l, k ::
      0 <= b < |p.blocks| && p.blocks[b].TextBlock? &&
      0 <= l < |p.blocks[b].lines| && 0 <= k < |p.blocks[b].lines[l]| &&
      Strip(p.blocks[b].lines[l][k].text) != [] && SpanKept(p.blocks[b].lines[l][k], PageArea(p))
  }

  /** A page has kept lines exactly when it has a kept span with non-blank
      text. */
  lemma KeptLinesNonEmpty(p: Page)
    ensures KeptLines(p) != [] <==> HasKeptSpan(p)
  {
    var keep := KeptOn(PageArea(p));
    PageLinesNonEmpty(p.blocks, keep);
    if PageHasWord(p.blocks, keep) {
      var b :| 0 <= b < |p.blocks| && p.blocks[b].TextBlock? && BlockHasWord(p.blocks[b].lines, keep);
      var l :| 0 <= l < |p.blocks[b].lines| && LineHasWord(p.blocks[b].lines[l], keep);
      var k :| 0 <= k < |p.blocks[b].lines[l]| && GivesWord(p.blocks[b].lines[l][k], keep);
      assert SpanKept(p.blocks[b].lines[l][k], PageArea(p));
    }
    if HasKeptSpan(p) {
      var b, l, k :|
        0 <= b < |p.blocks| && p.blocks[b].TextBlock? &&
        0 <= l < |p.blocks[b].lines| && 0 <= k < |p.blocks[b].lines[l]| &&
        Strip(p.blocks[b].lines[l][k].text) != [] && SpanKept(p.blocks[b].lines[l][k], PageArea(p));
      assert GivesWord(p.blocks[b].lines[l][k], keep);
      assert LineHasWord(p.blocks[b].lines[l], keep);
      assert BlockHasWord(p.blocks[b].lines, keep);
    }
  }

  /** Words are solid: stripped and non-blank. */
  lemma {:induction false} LineWordsSolid(spans: seq<Span>, keep: Span -> bool)
    ensures forall i :: 0 <= i < |LineWords(spans, keep)| ==> Solid(LineWords(spans, keep)[i])
  {
    if spans != [] {
      LineWordsSolid(spans[..|spans| - 1], keep);
    }
  }

  /** Every line of a block is solid. */
  lemma {:induction false} BlockLinesSolid(lines: seq<seq<Span>>, keep: Span -> bool)
    ensures forall i :: 0 <= i < |BlockLines(lines, keep)| ==> Solid(BlockLines(lines, keep)[i])
  {
    if lines != [] {
      BlockLinesSolid(lines[..|lines| - 1], keep);
      var ws := LineWords(lines[|lines| - 1], keep);
      if ws != [] {
        LineWordsSolid(lines[|lines| - 1], keep);
        JoinSolid(ws, " ");
      }
    }
  }

  /** Every line of a page is solid. */
  lemma {:induction false} PageLinesSolid(blocks: seq<Block>, keep: Span -> bool)
    ensures forall i :: 0 <= i < |PageLines(blocks, keep)| ==> Solid(PageLines(blocks, keep)[i])
  {
    if blocks != [] {
      PageLinesSolid(blocks[..|blocks| - 1], keep);
      if blocks[|blocks| - 1].TextBlock? {
        BlockLinesSolid(blocks[|blocks| - 1].lines, keep);
      }
    }
  }

  /** Every kept line of a page is solid. */
  lemma KeptLinesSolid(pages: seq<Page>)
    ensures forall i, j :: 0 <= i < |pages| && 0 <= j < |AllKeptLines(pages)[i]| ==> Solid(AllKeptLines(pages)[i][j])
  {
    forall i | 0 <= i < |pages|
      ensures forall j :: 0 <= j < |AllKeptLines(pages)[i]| ==> Solid(AllKeptLines(pages)[i][j])
    {
      PageLinesSolid(pages[i].blocks, KeptOn(PageArea(pages[i])));
    }
  }

  // ---------------------------------------------------------------- pages

  /** The numbers of the pages that have lines, in page order. */
  function KeptPageNumbers(pageLines: seq<seq<string>>): (ns: seq<nat>)
    ensures forall i :: 0 <= i < |ns| ==> 1 <= ns[i] <= |pageLines|
  {
    if pageLines == [] then []
    else KeptPageNumbers(pageLines[..|pageLines| - 1]) + (if pageLines[|pageLines| - 1] != [] then [|pageLines|] else [])
  }

  /** Page headers appear in strictly ascending page order. */
  lemma {:induction false} KeptPageNumbersAscending(pageLines: seq<seq<string>>)
    ensures forall i, j :: 0 <= i < j < |KeptPageNumbers(pageLines)| ==> KeptPageNumbers(pageLines)[i] < KeptPageNumbers(pageLines)[j]
  {
    if pageLines != [] {
      KeptPageNumbersAscending(pageLines[..|pageLines| - 1]);
    }
  }

  /** A page number is listed exactly when that page has lines. */
  lemma {:induction false} KeptPageNumberIff(pageLines: seq<seq<string>>, n: nat)
    ensures n in KeptPageNumbers(pageLines) <==> 1 <= n <= |pageLines| && pageLines[n - 1] != []
  {
    if pageLines != [] {
      var init := pageLines[..|pageLines| - 1];
      KeptPageNumberIff(init, n);
      if 1 <= n <= |init| {
        assert init[n - 1] == pageLines[n - 1];
      }
    }
  }

  /** The export has a `--- Page n ---` section exactly for the pages that
      have a kept span with non-blank text. */
  lemma KeptPageListed(pages: seq<Page>, n: nat)
    ensures n in KeptPageNumbers(AllKeptLines(pages)) <==> 1 <= n <= |pages| && HasKeptSpan(pages[n - 1])
  {
    var all := AllKeptLines(pages);
    KeptPageNumberIff(all, n);
    if 1 <= n <= |pages| {
      assert all[n - 1] == KeptLines(pages[n - 1]);
      KeptLinesNonEmpty(pages[n - 1]);
    }
  }

  /** The sections of the listed pages, in the listed order. */
  function Sections(pageLines: seq<seq<string>>, ns: seq<nat>): string
    requires forall i :: 0 <= i < |ns| ==> 1 <= ns[i] <= |pageLines|
  {
    if ns == [] then ""
    else
      var n := ns[|ns| - 1];
      Sections(pageLines, ns[..|ns| - 1]) + PageSection(n, pageLines[n - 1])
  }

  lemma {:induction false} SectionsPrefix(pageLines: seq<seq<string>>, m: nat, ns: seq<nat>)
    requires m <= |pageLines|
    requires forall i :: 0 <= i < |ns| ==> 1 <= ns[i] <= m
    ensures Sections(pageLines, ns) == Sections(pageLines[..m], ns)
  {
    if ns != [] {
      var n := ns[|ns| - 1];
      assert pageLines[..m][n - 1] == pageLines[n - 1];
      SectionsPrefix(pageLines, m, ns[..|ns| - 1]);
    }
  }

  /** The text before stripping is exactly one section per page with lines,
      in page order, and nothing else. */
  lemma {:induction false} LayoutIsSections(pageLines: seq<seq<string>>)
    ensures Layout(pageLines) == Sections(pageLines, KeptPageNumbers(pageLines))
  {
    if pageLines != [] {
      var n := |pageLines|;
      var init := pageLines[..n - 1];
      var lines := pageLines[n - 1];
      var ns0 := KeptPageNumbers(init);
      LayoutIsSections(init);
      SectionsPrefix(pageLines, n - 1, ns0);
      if lines != [] {
        var ns := ns0 + [n];
        assert KeptPageNumbers(pageLines) == ns;
        assert ns[..|ns| - 1] == ns0;
        assert Sections(pageLines, ns) == Sections(pageLines, ns0) + PageSection(n, lines);
      } else {
        assert KeptPageNumbers(pageLines) == ns0;
      }
    }
  }

  // ---------------------------------------------------------------- the final strip

  /** The section of a page with solid lines starts with the newline of its
      header followed by `-`, and ends with a newline right after the last
      character of its last line. */
  predicate FramedText(r: string) {
    |r| >= 2 && r[0] == '\n' && r[1] == '-' && r[|r| - 1] == '\n' && !IsSpace(r[|r| - 2])
  }

  lemma SectionFramed(n: nat, lines: seq<string>)
    requires lines != []
    requires forall j :: 0 <= j < |lines| ==> Solid(lines[j])
    ensures FramedText(PageSection(n, lines))
  {
    JoinSolid(lines, "\n");
    var body := Join(lines, "\n");
    var head := PageHeader(n);
    var sec := head + body + "\n";
    assert head[0] == '\n' && head[1] == '-';
    assert sec[0] == head[0] && sec[1] == head[1];
    assert sec[|sec| - 2] == body[|body| - 1];
  }

  lemma FramedAppend(a: string, b: string)
    requires a == [] || FramedText(a)
    requires FramedText(b)
    ensures FramedText(a + b)
  {
    if a != [] {
      assert (a + b)[0] == a[0] && (a + b)[1] == a[1];
    } else {
      assert a + b == b;
    }
  }

  /** Every line of every page is solid. */
  predicate AllSolid(pageLines: seq<seq<string>>) {
    forall i, j :: 0 <= i < |pageLines| && 0 <= j < |pageLines[i]| ==> Solid(pageLines[i][j])
  }

  /** When every line is solid, the text before stripping is empty, or it
      starts with the newline of the first page header followed by `-`, and
      it ends with a newline right after the last character of a line. */
  lemma {:induction false} LayoutShape(pageLines: seq<seq<string>>)
    requires AllSolid(pageLines)
    ensures Layout(pageLines) == [] || FramedText(Layout(pageLines))
  {
    if pageLines != [] {
      var init := pageLines[..|pageLines| - 1];
      assert forall i :: 0 <= i < |init| ==> init[i] == pageLines[i];
      LayoutShape(init);
      LayoutStep(pageLines, pageLines[|pageLines| - 1]);
    }
  }

  /** One more page keeps the layout framed. */
  lemma LayoutStep(pageLines: seq<seq<string>>, lines: seq<string>)
    requires pageLines != [] && lines == pageLines[|pageLines| - 1]
    requires forall j :: 0 <= j < |lines| ==> Solid(lines[j])
    requires var r0 := Layout(pageLines[..|pageLines| - 1]); r0 == [] || FramedText(r0)
    ensures Layout(pageLines) == [] || FramedText(Layout(pageLines))
  {
    var n := |pageLines|;
    var r0 := Layout(pageLines[..n - 1]);
    if lines != [] {
      SectionFramed(n, lines);
      FramedAppend(r0, PageSection(n, lines));
    } else {
      assert r0 + "" == r0;
    }
  }

  /** Stripping the layout of solid lines removes exactly the leading
      newline of the first header and the trailing newline of the last page. */
  lemma StrippedLayout(pageLines: seq<seq<string>>)
    requires AllSolid(pageLines)
    ensures var r := Sections(pageLines, KeptPageNumbers(pageLines));
            |r| != 1 && Strip(Layout(pageLines)) == if r == [] then [] else r[1..|r| - 1]
  {
    LayoutShape(pageLines);
    LayoutIsSections(pageLines);
    StripFramed(Layout(pageLines), Sections(pageLines, KeptPageNumbers(pageLines)));
  }

  /** Stripping a framed text removes its first and last character. */
  lemma StripFramed(layout: string, r: string)
    requires layout == r
    requires r == [] || FramedText(r)
    ensures |r| != 1 && Strip(layout) == if r == [] then [] else r[1..|r| - 1]
  {
    if r != [] {
      StripOneEach(r);
    }
  }

  /** The export is one `--- Page n ---` section per page with kept text,
      in ascending page order, with only the leading newline of the first
      header and the trailing newline of the last page stripped off. */
  lemma CleanTextSections(pages: seq<Page>)
    ensures var r := Sections(AllKeptLines(pages), KeptPageNumbers(AllKeptLines(pages)));
            |r| != 1 && CleanText(pages) == if r == [] then [] else r[1..|r| - 1]
  {
    KeptLinesSolid(pages);
    StrippedLayout(AllKeptLines(pages));
  }

  // ---------------------------------------------------------------- the export

  /** `extract_clean_text`'s page loop over the accumulated text. */
  method ExtractCleanText(pages: seq<Page>) returns (text: string)
    ensures text == CleanText(pages)
  {
    ghost var all := AllKeptLines(pages);
    var clean := "";
    var i := 0;
    while i < |pages|
      invariant 0 <= i <= |pages|
      invariant clean == Layout(all[..i])
    {
      assert all[..i + 1][..i] == all[..i];
      var page := pages[i];
      var pageText := CollectPageLines(page.blocks, KeptOn(PageArea(page)));
      assert pageText == all[i];
      if pageText != [] {
        clean := clean + ("\n--- Page " + NatToString(i + 1) + " ---\n" + Join(pageText, "\n") + "\n");
      }
      i := i + 1;
    }
    assert all[..i] == all;
    text := Strip(clean);
  }

  /** The block walk of one page. */
  method CollectPageLines(blocks: seq<Block>, keep: Span -> bool) returns (pageText: seq<string>)
    ensures pageText == PageLines(blocks, keep)
  {
    pageText := [];
    var b := 0;
    while b < |blocks|
      invariant 0 <= b <= |blocks|
      invariant pageText == PageLines(blocks[..b], keep)
    {
      assert blocks[..b + 1][..b] == blocks[..b];
      if blocks[b].TextBlock? {
        var more := CollectBlockLines(blocks[b].lines, keep);
        pageText := pageText + more;
      }
      b := b + 1;
    }
    assert blocks[..b] == blocks;
  }

  /** The line walk of one block: a line with words becomes one line of
      text. */
  method CollectBlockLines(lines: seq<seq<Span>>, keep: Span -> bool) returns (pageText: seq<string>)
    ensures pageText == BlockLines(lines, keep)
  {
    pageText := [];
    var l := 0;
    while l < |lines|
      invariant 0 <= l <= |lines|
      invariant pageText == BlockLines(lines[..l], keep)
    {
      assert lines[..l + 1][..l] == lines[..l];
      var lineText := CollectLineWords(lines[l], keep);
      if lineText != [] {
        pageText := pageText + [Join(lineText, " ")];
      }
      l := l + 1;
    }
    assert lines[..l] == lines;
  }

  /** The span walk of one line: blank spans are skipped, the others are
      kept when `keep` accepts them. */
  method CollectLineWords(spans: seq<Span>, keep: Span -> bool) returns (lineText: seq<string>)
    ensures lineText == LineWords(spans, keep)
  {
    lineText := [];
    var k := 0;
    while k < |spans|
      invariant 0 <= k <= |spans|
      invariant lineText == LineWords(spans[..k], keep)
    {
      assert spans[..k + 1][..k] == spans[..k];
      var txt := Strip(spans[k].text);
      if txt != [] && keep(spans[k]) {
        lineText := lineText + [txt];
      }
      k := k + 1;
    }
    assert spans[..k] == spans;
  }
}
