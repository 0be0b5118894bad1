module SectionExamples {
  import opened Text
  import opened Sections
  import opened Wrappers

  /** A nine-character text reading "chapter" in any case, a space and a
      digit is one chapter match over the whole text. */
  lemma ChapterHeading(s: string)
    requires |s| == 9 && KeywordAt(s, 0, "chapter") && s[7] == ' ' && IsDigit(s[8])
    ensures FindAll(Chapter, s, 0) == [Match(0, 9)]
  {
    assert SkipSpaces(s, 8) == 8;
    assert SkipSpaces(s, 7) == 8;
    assert SkipDigits(s, 9) == 9;
    assert SkipDigits(s, 8) == 9;
    assert MatchEnd(Chapter, s, 0) == Some(9);
    FindAllStep(Chapter, s, 0, Some(9));
  }

  // "Chapter 1": only the chapter pattern matches, once, over the whole text.
  lemma LectureC1() ensures FindAll(Lecture, "Chapter 1", 0) == [] {}
  lemma LessonC1() ensures FindAll(Lesson, "Chapter 1", 0) == [] {}
  lemma ChapterC1() ensures FindAll(Chapter, "Chapter 1", 0) == [Match(0, 9)] {
    ChapterHeading("Chapter 1");
  }
  lemma ModuleC1() ensures FindAll(Module, "Chapter 1", 0) == [] {}
  lemma TopicC1() ensures FindAll(Topic, "Chapter 1", 0) == [] {}

  lemma TitleC1() ensures TitleOf("Chapter 1", Match(0, 9)) == "Chapter 1" {
    var s := "Chapter 1";
    assert s[0..9] == s;
    StripSolid(s);
    CollapseUnchanged(s);
  }

  lemma OthersC1()
    ensures forall i :: 0 <= i < |Kinds| && i != 2 ==> FindAll(Kinds[i], "Chapter 1", 0) == []
  {
    LectureC1(); LessonC1(); ModuleC1(); TopicC1();
  }

  lemma TitlesC1() ensures PageTitles("Chapter 1") == ["Chapter 1"] {
    OthersC1();
    PageTitlesOnly("Chapter 1", 2);
    ChapterC1();
    AcceptedC1();
  }

  lemma AcceptedC1() ensures AcceptedTitles("Chapter 1", [Match(0, 9)]) == ["Chapter 1"] {
    TitleC1();
  }

  lemma ScanC1(n: nat) ensures ScanPage(n, "Chapter 1") == PageScan(false, ["Chapter 1"]) {
    TitlesC1();
    LectureC1(); LessonC1(); ChapterC1(); ModuleC1(); TopicC1();
  }

  // "Chapter 2"
  lemma LectureC2() ensures FindAll(Lecture, "Chapter 2", 0) == [] {}
  lemma LessonC2() ensures FindAll(Lesson, "Chapter 2", 0) == [] {}
  lemma ChapterC2() ensures FindAll(Chapter, "Chapter 2", 0) == [Match(0, 9)] {
    ChapterHeading("Chapter 2");
  }
  lemma ModuleC2() ensures FindAll(Module, "Chapter 2", 0) == [] {}
  lemma TopicC2() ensures FindAll(Topic, "Chapter 2", 0) == [] {}

  lemma TitleC2() ensures TitleOf("Chapter 2", Match(0, 9)) == "Chapter 2" {
    var s := "Chapter 2";
    assert s[0..9] == s;
    StripSolid(s);
    CollapseUnchanged(s);
  }

  lemma OthersC2()
    ensures forall i :: 0 <= i < |Kinds| && i != 2 ==> FindAll(Kinds[i], "Chapter 2", 0) == []
  {
    LectureC2(); LessonC2(); ModuleC2(); TopicC2();
  }

  lemma TitlesC2() ensures PageTitles("Chapter 2") == ["Chapter 2"] {
    OthersC2();
    PageTitlesOnly("Chapter 2", 2);
    ChapterC2();
    AcceptedC2();
  }

  lemma AcceptedC2() ensures AcceptedTitles("Chapter 2", [Match(0, 9)]) == ["Chapter 2"] {
    TitleC2();
  }

  lemma ScanC2(n: nat) ensures ScanPage(n, "Chapter 2") == PageScan(false, ["Chapter 2"]) {
    TitlesC2();
    LectureC2(); LessonC2(); ChapterC2(); ModuleC2(); TopicC2();
  }

  lemma ScanBlank(n: nat) ensures ScanPage(n, "") == PageScan(false, []) {
    MatchTitlesNone("", AllMatches(""));
  }

  // A ten-page document with "Chapter 1" on page 2 and "Chapter 2" on page 6.
  const Doc: seq<string> := ["", "Chapter 1", "", "", "", "Chapter 2", "", "", "", ""]

  /** The scans of the document: pages 2 and 6 have one title each. */
  predicate DocShape(scans: seq<PageScan>) {
    |scans| == 10
    && scans[1] == PageScan(false, ["Chapter 1"]) && scans[5] == PageScan(false, ["Chapter 2"])
    && forall i :: 0 <= i < 10 && i != 1 && i != 5 ==> scans[i].titles == []
  }

  lemma DocPages()
    ensures |Doc| == 10 && Doc[1] == "Chapter 1" && Doc[5] == "Chapter 2"
    ensures forall i :: 0 <= i < 10 && i != 1 && i != 5 ==> Doc[i] == ""
  {
  }

  lemma ScansDoc(texts: seq<string>)
    requires |texts| == 10 && texts[1] == "Chapter 1" && texts[5] == "Chapter 2"
    requires forall i :: 0 <= i < 10 && i != 1 && i != 5 ==> texts[i] == ""
    ensures DocShape(ScanPages(texts))
  {
    var ps := ScanPages(texts);
    ScanC1(2);
    ScanC2(6);
    forall i | 0 <= i < 10 && i != 1 && i != 5
      ensures ps[i].titles == []
    {
      ScanBlank(i + 1);
    }
  }

  lemma PositionsFront(scans: seq<PageScan>)
    requires |scans| == 5 && scans[1] == PageScan(false, ["Chapter 1"])
    requires forall i :: 0 <= i < 5 && i != 1 ==> scans[i].titles == []
    ensures Positions(scans) == [Hit("Chapter 1", 2)]
  {
    assert scans == ([] + scans[..1] + [scans[1]]) + scans[2..];
    PositionsQuiet([] + scans[..1] + [scans[1]], scans[2..]);
    PositionsSnoc([] + scans[..1], scans[1]);
    PositionsQuiet([], scans[..1]);
    assert HitsOn(["Chapter 1"], 2) == [Hit("Chapter 1", 2)];
  }

  lemma PositionsDoc(scans: seq<PageScan>)
    requires DocShape(scans)
    ensures Positions(scans) == [Hit("Chapter 1", 2), Hit("Chapter 2", 6)]
  {
    assert scans == (scans[..5] + [scans[5]]) + scans[6..];
    PositionsQuiet(scans[..5] + [scans[5]], scans[6..]);
    PositionsSnoc(scans[..5], scans[5]);
    PositionsFront(scans[..5]);
    assert HitsOn(["Chapter 2"], 6) == [Hit("Chapter 2", 6)];
  }

  lemma RangesDoc()
    ensures Ranges(Dedup([Hit("Chapter 1", 2), Hit("Chapter 2", 6)]), 10)
            == [Section("Chapter 1", 2, 5), Section("Chapter 2", 6, 10)]
  {
  }

  /** Chapter 1 runs from page 2 to page 5, chapter 2 from page 6 to the
      last page. */
  lemma ParseDoc()
    ensures ParseResult(Doc) == [Section("Chapter 1", 2, 5), Section("Chapter 2", 6, 10)]
  {
    DocPages();
    ScansDoc(Doc);
    PositionsDoc(ScanPages(Doc));
    RangesDoc();
  }

  // "CHAPTER 1" and "Chapter 1" differ in case and give two sections.
  lemma LectureU1() ensures FindAll(Lecture, "CHAPTER 1", 0) == [] {}
  lemma LessonU1() ensures FindAll(Lesson, "CHAPTER 1", 0) == [] {}
  lemma ChapterU1() ensures FindAll(Chapter, "CHAPTER 1", 0) == [Match(0, 9)] {
    ChapterHeading("CHAPTER 1");
  }
  lemma ModuleU1() ensures FindAll(Module, "CHAPTER 1", 0) == [] {}
  lemma TopicU1() ensures FindAll(Topic, "CHAPTER 1", 0) == [] {}

  lemma TitleU1() ensures TitleOf("CHAPTER 1", Match(0, 9)) == "CHAPTER 1" {
    var s := "CHAPTER 1";
    assert s[0..9] == s;
    StripSolid(s);
    CollapseUnchanged(s);
  }

  lemma OthersU1()
    ensures forall i :: 0 <= i < |Kinds| && i != 2 ==> FindAll(Kinds[i], "CHAPTER 1", 0) == []
  {
    LectureU1(); LessonU1(); ModuleU1(); TopicU1();
  }

  lemma AcceptedU1() ensures AcceptedTitles("CHAPTER 1", [Match(0, 9)]) == ["CHAPTER 1"] {
    TitleU1();
  }

  lemma TitlesU1() ensures PageTitles("CHAPTER 1") == ["CHAPTER 1"] {
    OthersU1();
    PageTitlesOnly("CHAPTER 1", 2);
    ChapterU1();
    AcceptedU1();
  }

  lemma ScanU1(n: nat) ensures ScanPage(n, "CHAPTER 1") == PageScan(false, ["CHAPTER 1"]) {
    TitlesU1();
    LectureU1(); LessonU1(); ChapterU1(); ModuleU1(); TopicU1();
  }

  lemma TwoPagePositions(scans: seq<PageScan>)
    requires |scans| == 2
    ensures Positions(scans)
            == (if scans[0].suppressed then [] else HitsOn(scans[0].titles, 1))
               + (if scans[1].suppressed then [] else HitsOn(scans[1].titles, 2))
  {
    assert scans == ([] + [scans[0]]) + [scans[1]];
    PositionsSnoc([] + [scans[0]], scans[1]);
    PositionsSnoc([], scans[0]);
  }

  const Cased: seq<string> := ["CHAPTER 1", "Chapter 1"]

  predicate CasedShape(scans: seq<PageScan>) {
    |scans| == 2
    && scans[0] == PageScan(false, ["CHAPTER 1"]) && scans[1] == PageScan(false, ["Chapter 1"])
  }

  lemma CasedPages() ensures |Cased| == 2 && Cased[0] == "CHAPTER 1" && Cased[1] == "Chapter 1" {}

  lemma ScansCased(texts: seq<string>)
    requires |texts| == 2 && texts[0] == "CHAPTER 1" && texts[1] == "Chapter 1"
    ensures CasedShape(ScanPages(texts))
  {
    ScanU1(1);
    ScanC1(2);
  }

  lemma PositionsCased(scans: seq<PageScan>)
    requires CasedShape(scans)
    ensures Positions(scans) == [Hit("CHAPTER 1", 1), Hit("Chapter 1", 2)]
  {
    TwoPagePositions(scans);
    assert HitsOn(["CHAPTER 1"], 1) == [Hit("CHAPTER 1", 1)];
    assert HitsOn(["Chapter 1"], 2) == [Hit("Chapter 1", 2)];
  }

  lemma DedupTwo(a: string, b: string)
    requires a != b
    ensures Dedup([Hit(a, 1), Hit(b, 2)]) == [Hit(a, 1), Hit(b, 2)]
  {
    var hs := [Hit(a, 1), Hit(b, 2)];
    assert hs[..1] == [Hit(a, 1)];
    assert [Hit(a, 1)][..0] == [];
    assert Dedup([Hit(a, 1)]) == [Hit(a, 1)];
    assert TitleSet([Hit(a, 1)]) == {a};
  }

  lemma RangesCased()
    ensures Ranges(Dedup([Hit("CHAPTER 1", 1), Hit("Chapter 1", 2)]), 2)
            == [Section("CHAPTER 1", 1, 1), Section("Chapter 1", 2, 2)]
  {
    DedupTwo("CHAPTER 1", "Chapter 1");
  }

  /** Titles are compared with their case: the same heading in capitals and
      in title case gives two sections. */
  lemma ParseCases()
    ensures ParseResult(Cased) == [Section("CHAPTER 1", 1, 1), Section("Chapter 1", 2, 2)]
  {
    CasedPages();
    ScansCased(Cased);
    PositionsCased(ScanPages(Cased));
    RangesCased();
  }

  /** Two titles that start on the same page: the one listed first (pattern
      order within a page) ends on that page, the other runs up to the page
      before the next section. Swapping them swaps their end pages, so the
      order the patterns are tried in shows in the result. */
  lemma SamePageOrder(a: string, b: string, c: string, p: nat, q: nat, total: nat)
    requires 1 <= p < q
    ensures Ranges([Hit(a, p), Hit(b, p), Hit(c, q)], total)
            == [Section(a, p, p), Section(b, p, q - 1), Section(c, q, total)]
  {
  }
}
