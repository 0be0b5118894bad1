/** The section index of `parse_pdf` (utiles/parse_pdf.py): find lecture,
    lesson, chapter, module and topic headings near the top of each page's
    text, keep the first page on which each heading title occurs, and give
    every section the page range up to the next section's start. */
module Sections {
  import opened Text
  import opened Wrappers

  /** The five heading kinds, in the order the patterns are tried. */
  datatype Kind = Lecture | Lesson | Chapter | Module | Topic

  const Kinds: seq<Kind> := [Lecture, Lesson, Chapter, Module, Topic]

  /** Matches starting after this character offset are ignored. */
  const MaxOffset: nat := 100

  /** Pages up to this number are skipped when they have too many hits. */
  const FrontPages: nat := 5

  /** More hits than this on a front page mark it as a table of contents. */
  const FrontPageHitLimit: nat := 3

  /** The heading keyword of a kind, lower-cased. */
  function Keyword(k: Kind): (kw: string)
    ensures |kw| > 0
  {
    match k
    case Lecture => "lecture"
    case Lesson => "lesson"
    case Chapter => "chapter"
    case Module => "module"
    case Topic => "topic"
  }

  // ---------------------------------------------------------------- the recognisers

  /** The lower-case keyword `kw` occurs at offset `i` of `text`, ignoring
      the case of ASCII letters. */
  predicate KeywordAt(text: string, i: nat, kw: string)
    ensures KeywordAt(text, i, kw) ==> i + |kw| <= |text|
    decreases |kw|
  {
    if kw == [] then i <= |text|
    else i < |text| && Lower(text[i]) == kw[0] && KeywordAt(text, i + 1, kw[1..])
  }

  /** `\s*`: the first offset from `j` on that is not whitespace. */
  function SkipSpaces(text: string, j: nat): (e: nat)
    requires j <= |text|
    ensures j <= e <= |text|
    ensures forall x :: j <= x < e ==> IsSpace(text[x])
    ensures e < |text| ==> !IsSpace(text[e])
    decreases |text| - j
  {
    if j < |text| && IsSpace(text[j]) then SkipSpaces(text, j + 1) else j
  }

  /** `\d*`: the first offset from `j` on that is not a digit. */
  function SkipDigits(text: string, j: nat): (e: nat)
    requires j <= |text|
    ensures j <= e <= |text|
    ensures forall x :: j <= x < e ==> IsDigit(text[x])
    ensures e < |text| ==> !IsDigit(text[e])
    decreases |text| - j
  {
    if j < |text| && IsDigit(text[j]) then SkipDigits(text, j + 1) else j
  }

  /** `(?:No\.?|#)?`: the offset after an optional "No", "No." or "#". */
  function NumberMark(text: string, j: nat): (k: nat)
    requires j <= |text|
    ensures j <= k <= |text|
  {
    if j + 2 <= |text| && Lower(text[j]) == 'n' && Lower(text[j + 1]) == 'o' then
      (if j + 2 < |text| && text[j + 2] == '.' then j + 3 else j + 2)
    else if j < |text| && text[j] == '#' then j + 1
    else j
  }

  /** Topic headings may end with one of `:`, `.` or `-`. */
  predicate TopicSuffix(c: char) { c == ':' || c == '.' || c == '-' }

  /** The end of the heading of kind `k` that starts at offset `i`, if one
      does:
        Lecture, Lesson  `kw\s*(?:No\.?|#)?\s*\d+`
        Chapter, Module  `kw\s*\d+`
        Topic            `kw\s*\d+[:.-]?`
      Each quantifier is greedy and no shorter choice can let a later part
      succeed, so the first match of the regular expression is this one. */
  function MatchEnd(k: Kind, text: string, i: nat): (r: Option<nat>)
    requires i <= |text|
    ensures r.Some? ==> i + |Keyword(k)| < r.value <= |text| && KeywordAt(text, i, Keyword(k))
    ensures r.Some? ==> !IsSpace(text[i]) && !IsSpace(text[r.value - 1])
  {
    var kw := Keyword(k);
    if !KeywordAt(text, i, kw) then None
    else
      var j := SkipSpaces(text, i + |kw|);
      var m := if k == Lecture || k == Lesson then SkipSpaces(text, NumberMark(text, j)) else j;
      var e := SkipDigits(text, m);
      if e == m then None
      else if k == Topic && e < |text| && TopicSuffix(text[e]) then Some(e + 1)
      else Some(e)
  }

  /** A match: its start offset and its end offset in the page text. */
  datatype Match = Match(start: nat, end: nat)

  /** Matches lie within the text, in ascending order, without overlap. */
  predicate OrderedMatches(text: string, from: nat, ms: seq<Match>) {
    (forall x :: 0 <= x < |ms| ==> from <= ms[x].start < ms[x].end <= |text|)
    && (forall x :: 0 <= x < |ms| - 1 ==> ms[x].end <= ms[x + 1].start)
  }

  /** `re.finditer` from offset `i`: scan left to right; after a match,
      continue where it ended. */
  function FindAll(k: Kind, text: string, i: nat): (ms: seq<Match>)
    requires i <= |text|
    ensures OrderedMatches(text, i, ms)
    decreases |text| - i
  {
    if i == |text| then []
    else
      match MatchEnd(k, text, i)
      case Some(e) => [Match(i, e)] + FindAll(k, text, e)
      case None => FindAll(k, text, i + 1)
  }

  /** Every match found is a match of the pattern at its start offset. */
  lemma {:induction false} FindAllSound(k: Kind, text: string, i: nat, x: nat)
    requires i <= |text| && x < |FindAll(k, text, i)|
    ensures var m := FindAll(k, text, i)[x];
            MatchEnd(k, text, m.start) == Some(m.end)
    decreases |text| - i
  {
    if i < |text| {
      var r := MatchEnd(k, text, i);
      FindAllStep(k, text, i, r);
      if r.Some? {
        if x > 0 {
          var m := FindAll(k, text, r.value)[x - 1];
          FindAllSound(k, text, r.value, x - 1);
          assert MatchEnd(k, text, m.start) == Some(m.end);
          assert FindAll(k, text, i)[x] == m;
        } else {
          assert FindAll(k, text, i)[x] == Match(i, r.value);
          assert MatchEnd(k, text, i) == Some(r.value);
        }
      } else {
        var m := FindAll(k, text, i + 1)[x];
        FindAllSound(k, text, i + 1, x);
        assert MatchEnd(k, text, m.start) == Some(m.end);
        assert FindAll(k, text, i)[x] == m;
      }
    }
  }

  /** One step of the scan: a match at `i` is listed first and the scan
      resumes at its end; otherwise the scan resumes at `i + 1`. */
  lemma FindAllStep(k: Kind, text: string, i: nat, r: Option<nat>)
    requires i < |text| && r == MatchEnd(k, text, i)
    ensures r.Some? ==>
              i < r.value <= |text| && FindAll(k, text, i) == [Match(i, r.value)] + FindAll(k, text, r.value)
    ensures r.None? ==> FindAll(k, text, i) == FindAll(k, text, i + 1)
  {
  }

  /** The number of matches of all five patterns in a page text. */
  function HitCount(text: string): nat {
    |FindAll(Lecture, text, 0)| + |FindAll(Lesson, text, 0)| + |FindAll(Chapter, text, 0)|
    + |FindAll(Module, text, 0)| + |FindAll(Topic, text, 0)|
  }

  /** Pages 1 to 5 with more than three hits are skipped. */
  predicate Suppressed(pageNum: nat, text: string) {
    pageNum <= FrontPages && HitCount(text) > FrontPageHitLimit
  }

  // ---------------------------------------------------------------- titles

  /** The title of a match: the matched text stripped, every whitespace run
      replaced by one space. */
  function TitleOf(text: string, m: Match): string
    requires m.start <= m.end <= |text|
  {
    CollapseSpaces(Strip(text[m.start..m.end]))
  }

  /** The titles of the matches that start within the first 101 characters. */
  function AcceptedTitles(text: string, ms: seq<Match>): (ts: seq<string>)
    requires forall x :: 0 <= x < |ms| ==> ms[x].start <= ms[x].end <= |text|
    ensures |ts| <= |ms|
  {
    if ms == [] then []
    else
      var m := ms[|ms| - 1];
      AcceptedTitles(text, ms[..|ms| - 1]) + (if m.start <= MaxOffset then [TitleOf(text, m)] else [])
  }

  /** The matches of each of the five patterns in a page text, in pattern
      order. */
  function AllMatches(text: string): (mss: seq<seq<Match>>)
    ensures |mss| == |Kinds|
    ensures forall j :: 0 <= j < |Kinds| ==> mss[j] == FindAll(Kinds[j], text, 0)
  {
    seq(|Kinds|, j requires 0 <= j < |Kinds| => FindAll(Kinds[j], text, 0))
  }

  predicate WithinText(text: string, mss: seq<seq<Match>>) {
    forall j, x :: 0 <= j < |mss| && 0 <= x < |mss[j]| ==> mss[j][x].start <= mss[j][x].end <= |text|
  }

  /** The accepted titles of each list of matches, list after list. */
  function MatchTitles(text: string, mss: seq<seq<Match>>): seq<string>
    requires WithinText(text, mss)
  {
    if mss == [] then []
    else MatchTitles(text, mss[..|mss| - 1]) + AcceptedTitles(text, mss[|mss| - 1])
  }

  /** The titles a page contributes, in pattern order then match order. */
  function PageTitles(text: string): seq<string> {
    MatchTitles(text, AllMatches(text))
  }

  /** A title and the page it was found on. */
  datatype Hit = Hit(title: string, page: nat)

  /** What one page contributes: whether it is skipped, and its titles. */
  datatype PageScan = PageScan(suppressed: bool, titles: seq<string>)

  function ScanPage(n: nat, text: string): PageScan {
    PageScan(Suppressed(n, text), PageTitles(text))
  }

  /** The scan of every page; `texts[i]` is page `i + 1`. */
  function ScanPages(texts: seq<string>): (ps: seq<PageScan>)
    ensures |ps| == |texts|
    ensures forall i :: 0 <= i < |texts| ==> ps[i] == ScanPage(i + 1, texts[i])
  {
    seq(|texts|, i requires 0 <= i < |texts| => ScanPage(i + 1, texts[i]))
  }

  /** The hits of every page in order; page `|scans|` is the last one. */
  function Positions(scans: seq<PageScan>): (hs: seq<Hit>)
    ensures forall x :: 0 <= x < |hs| ==> 1 <= hs[x].page <= |scans|
  {
    if scans == [] then []
    else
      var n := |scans|;
      var last := scans[n - 1];
      Positions(scans[..n - 1]) + (if last.suppressed then [] else HitsOn(last.titles, n))
  }

  /** Scanning one more page appends that page's hits, unless it is
      suppressed. */
  lemma PositionsSnoc(scans: seq<PageScan>, sc: PageScan)
    ensures Positions(scans + [sc])
            == Positions(scans) + (if sc.suppressed then [] else HitsOn(sc.titles, |scans| + 1))
  {
    var t := scans + [sc];
    assert t[..|t| - 1] == scans;
    assert t[|t| - 1] == sc;
    assert Positions(t) == Positions(t[..|t| - 1]) + (if sc.suppressed then [] else HitsOn(sc.titles, |t|));
  }

  /** Pages without titles add no hits. */
  lemma {:induction false} PositionsQuiet(scans: seq<PageScan>, rest: seq<PageScan>)
    requires forall i :: 0 <= i < |rest| ==> rest[i].titles == []
    ensures Positions(scans + rest) == Positions(scans)
    decreases |rest|
  {
    if rest != [] {
      var n := |rest| - 1;
      assert scans + rest == (scans + rest[..n]) + [rest[n]];
      PositionsSnoc(scans + rest[..n], rest[n]);
      var a := Positions(scans + rest[..n]);
      assert HitsOn(rest[n].titles, |scans + rest[..n]| + 1) == [];
      assert a + [] == a;
      PositionsQuiet(scans, rest[..n]);
    } else {
      assert scans + rest == scans;
    }
  }

  /** The titles of one page paired with its number. */
  function HitsOn(ts: seq<string>, n: nat): (hs: seq<Hit>)
    ensures |hs| == |ts|
    ensures forall x :: 0 <= x < |hs| ==> hs[x] == Hit(ts[x], n)
  {
    seq(|ts|, x requires 0 <= x < |ts| => Hit(ts[x], n))
  }

  // ---------------------------------------------------------------- de-duplication

  /** The titles of a run of hits. */
  function TitleSet(hs: seq<Hit>): set<string> {
    if hs == [] then {} else TitleSet(hs[..|hs| - 1]) + {hs[|hs| - 1].title}
  }

  /** The hits whose title has not occurred earlier, in order. */
  function Dedup(hs: seq<Hit>): seq<Hit> {
    if hs == [] then []
    else
      var h := hs[|hs| - 1];
      var init := hs[..|hs| - 1];
      Dedup(init) + (if h.title in TitleSet(init) then [] else [h])
  }

  // ---------------------------------------------------------------- page ranges

  /** A section of the result: title, first page and last page. */
  datatype Section = Section(title: string, startPage: nat, endPage: nat)

  /** The end page of entry `x`: the page before the next entry's start when
      the next one starts on a later page, otherwise its own start page; the
      last entry ends on the last page. */
  function EndPage(us: seq<Hit>, x: nat, total: nat): nat
    requires x < |us|
  {
    if x < |us| - 1 then
      var next := us[x + 1].page;
      if next > us[x].page then next - 1 else us[x].page
    else total
  }

  function Ranges(us: seq<Hit>, total: nat): (ss: seq<Section>)
    ensures |ss| == |us|
  {
    seq(|us|, x requires 0 <= x < |us| => Section(us[x].title, us[x].page, EndPage(us, x, total)))
  }

  /** `parse_pdf`'s result, as its entries in insertion order (the titles
      are distinct, so this is the dictionary). */
  function ParseResult(texts: seq<string>): seq<Section> {
    Ranges(Dedup(Positions(ScanPages(texts))), |texts|)
  }

  // ---------------------------------------------------------------- titles: lemmas

  /** A title is the matched text with each whitespace run collapsed: it
      starts and ends with a non-space character, its only whitespace is
      single spaces, and it keeps the letter case of the page text. */
  lemma TitleShape(k: Kind, text: string, m: Match)
    requires m.start <= m.end <= |text| && MatchEnd(k, text, m.start) == Some(m.end)
    ensures TitleOf(text, m) == CollapseSpaces(text[m.start..m.end])
    ensures Solid(TitleOf(text, m))
    ensures var t := TitleOf(text, m);
            (forall x :: 0 <= x < |t| && IsSpace(t[x]) ==> t[x] == ' ')
            && (forall x :: 0 <= x < |t| - 1 ==> !(t[x] == ' ' && t[x + 1] == ' '))
  {
    var s := text[m.start..m.end];
    assert s[0] == text[m.start] && s[|s| - 1] == text[m.end - 1];
    StripSolid(s);
    CollapseSolid(s);
  }

  /** Every accepted title comes from a match starting at offset 100 or
      less. */
  lemma {:induction false} AcceptedTitleSource(text: string, ms: seq<Match>, t: string) returns (x: nat)
    requires forall y :: 0 <= y < |ms| ==> ms[y].start <= ms[y].end <= |text|
    requires t in AcceptedTitles(text, ms)
    ensures x < |ms| && ms[x].start <= MaxOffset && t == TitleOf(text, ms[x])
  {
    var n := |ms| - 1;
    if ms[n].start <= MaxOffset && t == TitleOf(text, ms[n]) {
      x := n;
    } else {
      x := AcceptedTitleSource(text, ms[..n], t);
    }
  }

  /** Every match starting at offset 100 or less gives a title. */
  lemma {:induction false} AcceptedTitleFound(text: string, ms: seq<Match>, x: nat)
    requires forall y :: 0 <= y < |ms| ==> ms[y].start <= ms[y].end <= |text|
    requires x < |ms| && ms[x].start <= MaxOffset
    ensures TitleOf(text, ms[x]) in AcceptedTitles(text, ms)
  {
    var n := |ms| - 1;
    if x < n {
      assert ms[..n][x] == ms[x];
      AcceptedTitleFound(text, ms[..n], x);
    }
  }

  lemma {:induction false} MatchTitleSource(text: string, mss: seq<seq<Match>>, t: string) returns (j: nat, x: nat)
    requires WithinText(text, mss) && t in MatchTitles(text, mss)
    ensures j < |mss| && x < |mss[j]| && mss[j][x].start <= MaxOffset && t == TitleOf(text, mss[j][x])
  {
    var n := |mss| - 1;
    if t in AcceptedTitles(text, mss[n]) {
      j := n;
      x := AcceptedTitleSource(text, mss[n], t);
    } else {
      j, x := MatchTitleSource(text, mss[..n], t);
    }
  }

  lemma {:induction false} MatchTitleFound(text: string, mss: seq<seq<Match>>, j: nat, x: nat)
    requires WithinText(text, mss)
    requires j < |mss| && x < |mss[j]| && mss[j][x].start <= MaxOffset
    ensures TitleOf(text, mss[j][x]) in MatchTitles(text, mss)
  {
    var n := |mss| - 1;
    if j < n {
      assert mss[..n][j] == mss[j];
      MatchTitleFound(text, mss[..n], j, x);
    } else {
      AcceptedTitleFound(text, mss[n], x);
    }
  }

  lemma {:induction false} MatchTitlesNone(text: string, mss: seq<seq<Match>>)
    requires WithinText(text, mss)
    requires forall i :: 0 <= i < |mss| ==> mss[i] == []
    ensures MatchTitles(text, mss) == []
  {
    if mss != [] {
      var n := |mss| - 1;
      assert forall i :: 0 <= i < n ==> mss[..n][i] == mss[i];
      MatchTitlesNone(text, mss[..n]);
    }
  }

  /** When only list `j` holds matches, the titles are that list's titles. */
  lemma {:induction false} MatchTitlesOnly(text: string, mss: seq<seq<Match>>, j: nat)
    requires WithinText(text, mss) && j < |mss|
    requires forall i :: 0 <= i < |mss| && i != j ==> mss[i] == []
    ensures MatchTitles(text, mss) == AcceptedTitles(text, mss[j])
  {
    var n := |mss| - 1;
    assert forall i :: 0 <= i < n ==> mss[..n][i] == mss[i];
    if j == n {
      MatchTitlesNone(text, mss[..n]);
    } else {
      MatchTitlesOnly(text, mss[..n], j);
    }
  }

  /** The titles of a page are the titles of the matches of the five
      patterns that start at offset 100 or less: only these, ... */
  lemma PageTitleSource(text: string, t: string) returns (j: nat, x: nat)
    requires t in PageTitles(text)
    ensures j < |Kinds| && x < |FindAll(Kinds[j], text, 0)|
    ensures FindAll(Kinds[j], text, 0)[x].start <= MaxOffset && t == TitleOf(text, FindAll(Kinds[j], text, 0)[x])
  {
    j, x := MatchTitleSource(text, AllMatches(text), t);
  }

  /** ... and all of these. */
  lemma PageTitleFound(text: string, j: nat, x: nat)
    requires j < |Kinds| && x < |FindAll(Kinds[j], text, 0)| && FindAll(Kinds[j], text, 0)[x].start <= MaxOffset
    ensures TitleOf(text, FindAll(Kinds[j], text, 0)[x]) in PageTitles(text)
  {
    MatchTitleFound(text, AllMatches(text), j, x);
  }

  /** When only the pattern of kind `Kinds[j]` matches, the page's titles
      are the titles of its matches. */
  lemma PageTitlesOnly(text: string, j: nat)
    requires j < |Kinds|
    requires forall i :: 0 <= i < |Kinds| && i != j ==> FindAll(Kinds[i], text, 0) == []
    ensures PageTitles(text) == AcceptedTitles(text, FindAll(Kinds[j], text, 0))
  {
    MatchTitlesOnly(text, AllMatches(text), j);
  }

  // ---------------------------------------------------------------- positions: lemmas

  /** Hits listed in non-decreasing page order. */
  predicate PageOrdered(hs: seq<Hit>) {
    forall x, y :: 0 <= x < y < |hs| ==> hs[x].page <= hs[y].page
  }

  /** Hits are listed in page order. */
  lemma {:induction false} PositionsSorted(scans: seq<PageScan>)
    ensures PageOrdered(Positions(scans))
  {
    if scans != [] {
      var n := |scans|;
      var last := scans[n - 1];
      var a := Positions(scans[..n - 1]);
      PositionsSorted(scans[..n - 1]);
      var b := if last.suppressed then [] else HitsOn(last.titles, n);
      var hs := a + b;
      assert |scans[..n - 1]| == n - 1;
      assert forall z :: 0 <= z < |a| ==> a[z].page <= n - 1;
      assert forall z :: 0 <= z < |b| ==> b[z].page == n;
      forall x, y | 0 <= x < y < |hs|
        ensures hs[x].page <= hs[y].page
      {
        if y < |a| {
          assert hs[x] == a[x] && hs[y] == a[y];
          assert a[x].page <= a[y].page;
        } else if x < |a| {
          assert hs[x] == a[x] && hs[y] == b[y - |a|];
          assert a[x].page <= n - 1;
          assert b[y - |a|].page == n;
        } else {
          assert hs[x] == b[x - |a|] && hs[y] == b[y - |a|];
          assert b[x - |a|].page == n;
          assert b[y - |a|].page == n;
        }
      }
    }
  }

  /** A hit comes from a page that is not suppressed, and its title is one
      of that page's titles: a suppressed page contributes nothing. */
  lemma {:induction false} PositionSource(scans: seq<PageScan>, h: Hit)
    requires h in Positions(scans)
    ensures 1 <= h.page <= |scans|
    ensures !scans[h.page - 1].suppressed && h.title in scans[h.page - 1].titles
  {
    var n := |scans|;
    var init := scans[..n - 1];
    if h in Positions(init) {
      PositionSource(init, h);
      assert init[h.page - 1] == scans[h.page - 1];
    } else {
      var hs := HitsOn(scans[n - 1].titles, n);
      var x :| 0 <= x < |hs| && hs[x] == h;
    }
  }

  /** Every title of a page that is not suppressed is a hit on that page. */
  lemma {:induction false} PositionFound(scans: seq<PageScan>, n: nat, t: string)
    requires 1 <= n <= |scans| && !scans[n - 1].suppressed && t in scans[n - 1].titles
    ensures Hit(t, n) in Positions(scans)
  {
    var m := |scans|;
    var init := scans[..m - 1];
    if n < m {
      assert init[n - 1] == scans[n - 1];
      PositionFound(init, n, t);
    } else {
      var ts := scans[m - 1].titles;
      var x :| 0 <= x < |ts| && ts[x] == t;
      assert HitsOn(ts, n)[x] == Hit(t, n);
    }
  }

  /** The hits of a document: a hit on page n has a title of page n, and
      page n is not one of pages 1 to 5 with more than three matches; every
      title of every other page is a hit. */
  lemma DocumentHits(texts: seq<string>, h: Hit)
    ensures h in Positions(ScanPages(texts))
            <==> 1 <= h.page <= |texts| && !Suppressed(h.page, texts[h.page - 1])
                 && h.title in PageTitles(texts[h.page - 1])
  {
    var scans := ScanPages(texts);
    PositionsIff(scans, h);
    if 1 <= h.page <= |texts| {
      ScanAt(texts, h.page);
    }
  }

  /** A hit is listed iff its page exists, is not suppressed and has that
      title. */
  lemma PositionsIff(scans: seq<PageScan>, h: Hit)
    ensures h in Positions(scans)
            ==> 1 <= h.page <= |scans| && !scans[h.page - 1].suppressed
                && h.title in scans[h.page - 1].titles
    ensures 1 <= h.page <= |scans| && !scans[h.page - 1].suppressed
            && h.title in scans[h.page - 1].titles
            ==> h in Positions(scans)
  {
    if 1 <= h.page <= |scans| && !scans[h.page - 1].suppressed && h.title in scans[h.page - 1].titles {
      PositionFound(scans, h.page, h.title);
    } else if h in Positions(scans) {
      PositionSource(scans, h);
    }
  }



  lemma ScanAt(texts: seq<string>, p: nat)
    requires 1 <= p <= |texts|
    ensures ScanPages(texts)[p - 1].suppressed == Suppressed(p, texts[p - 1])
    ensures ScanPages(texts)[p - 1].titles == PageTitles(texts[p - 1])
  {
  }


  // ---------------------------------------------------------------- de-duplication: lemmas

  lemma {:induction false} TitleSetMember(hs: seq<Hit>, t: string)
    ensures t in TitleSet(hs) <==> exists x :: 0 <= x < |hs| && hs[x].title == t
  {
    if hs != [] {
      var init := hs[..|hs| - 1];
      TitleSetMember(init, t);
      if exists x :: 0 <= x < |init| && init[x].title == t {
        var x :| 0 <= x < |init| && init[x].title == t;
        assert hs[x] == init[x];
      }
      if exists x :: 0 <= x < |hs| && hs[x].title == t {
        var x :| 0 <= x < |hs| && hs[x].title == t;
        if x < |init| {
          assert init[x] == hs[x];
        }
      }
    }
  }

  /** De-duplication loses no title. */
  lemma {:induction false} DedupTitles(hs: seq<Hit>)
    ensures TitleSet(Dedup(hs)) == TitleSet(hs)
  {
    if hs != [] {
      var init := hs[..|hs| - 1];
      DedupTitles(init);
      var d := Dedup(init);
      var h := hs[|hs| - 1];
      if h.title !in TitleSet(init) {
        assert (d + [h])[..|d + [h]| - 1] == d;
      } else {
        assert d + [] == d;
      }
    }
  }

  /** Each entry of the de-duplicated list is the first hit with its title. */
  lemma {:induction false} DedupFirst(hs: seq<Hit>, h: Hit) returns (j: nat)
    requires h in Dedup(hs)
    ensures j < |hs| && hs[j] == h
    ensures forall y :: 0 <= y < j ==> hs[y].title != h.title
  {
    var n := |hs| - 1;
    var init := hs[..n];
    if h in Dedup(init) {
      j := DedupFirst(init, h);
      assert hs[j] == init[j];
      forall y | 0 <= y < j
        ensures hs[y].title != h.title
      {
        assert hs[y] == init[y];
      }
    } else {
      j := n;
      assert h == hs[n] && h.title !in TitleSet(init);
      TitleSetMember(init, h.title);
      forall y | 0 <= y < j
        ensures hs[y].title != h.title
      {
        assert hs[y] == init[y];
      }
    }
  }

  /** No two hits share a title. */
  predicate DistinctTitles(hs: seq<Hit>) {
    forall x, y :: 0 <= x < y < |hs| ==> hs[x].title != hs[y].title
  }

  /** Titles of the de-duplicated list are pairwise distinct. */
  lemma {:induction false} DedupUnique(hs: seq<Hit>)
    ensures DistinctTitles(Dedup(hs))
  {
    if hs != [] {
      var init := hs[..|hs| - 1];
      DedupUnique(init);
      var d := Dedup(init);
      var h := hs[|hs| - 1];
      if h.title !in TitleSet(init) {
        DedupTitles(init);
        TitleSetMember(d, h.title);
        var e := d + [h];
        forall x, y | 0 <= x < y < |e|
          ensures e[x].title != e[y].title
        {
          if y == |d| {
            assert e[x] == d[x];
          } else {
            assert e[x] == d[x] && e[y] == d[y];
          }
        }
      }
    }
  }

  /** De-duplication keeps a page-ordered list page-ordered. */
  lemma {:induction false} DedupSorted(hs: seq<Hit>)
    requires PageOrdered(hs)
    ensures PageOrdered(Dedup(hs))
  {
    if hs != [] {
      var n := |hs| - 1;
      var init := hs[..n];
      DedupSorted(init);
      var d := Dedup(init);
      var h := hs[n];
      if h.title !in TitleSet(init) {
        forall x | 0 <= x < |d|
          ensures d[x].page <= h.page
        {
          var j := DedupFirst(init, d[x]);
          assert hs[j] == init[j];
        }
        var e := d + [h];
        assert Dedup(hs) == e;
        forall x, y | 0 <= x < y < |e|
          ensures e[x].page <= e[y].page
        {
          assert e[x] == d[x];
          if y == |d| {
            assert e[y] == h;
          } else {
            assert e[y] == d[y];
          }
        }
      } else {
        assert Dedup(hs) == d + [];
        assert d + [] == d;
      }
    }
  }

  /** Every entry of the de-duplicated list is one of the hits. */
  lemma DedupMember(hs: seq<Hit>, x: nat)
    requires x < |Dedup(hs)|
    ensures Dedup(hs)[x] in hs
  {
    var j := DedupFirst(hs, Dedup(hs)[x]);
  }

  // ---------------------------------------------------------------- page ranges: lemmas

  /** With page-ordered entries on pages 1 to `total`, every section has
      1 <= start <= end <= total, and start pages never decrease. */
  lemma RangesBounds(us: seq<Hit>, total: nat)
    requires forall x :: 0 <= x < |us| ==> 1 <= us[x].page <= total
    requires PageOrdered(us)
    ensures var ss := Ranges(us, total);
            (forall x :: 0 <= x < |ss| ==> 1 <= ss[x].startPage <= ss[x].endPage <= total)
            && (forall x, y :: 0 <= x < y < |ss| ==> ss[x].startPage <= ss[y].startPage)
  {
  }

  /** Every section's start page and end page lie within the document, and
      sections are listed in order of their start pages. */
  lemma ParseResultBounds(texts: seq<string>)
    ensures var ss := ParseResult(texts);
            (forall x :: 0 <= x < |ss| ==> 1 <= ss[x].startPage <= ss[x].endPage <= |texts|)
            && (forall x, y :: 0 <= x < y < |ss| ==> ss[x].startPage <= ss[y].startPage)
  {
    var hs := Positions(ScanPages(texts));
    PositionsSorted(ScanPages(texts));
    DedupSorted(hs);
    var d := Dedup(hs);
    forall x | 0 <= x < |d|
      ensures 1 <= d[x].page <= |texts|
    {
      DedupMember(hs, x);
    }
    RangesBounds(d, |texts|);
  }

  /** No title appears twice in the result. */
  lemma ParseResultUnique(texts: seq<string>)
    ensures forall x, y :: 0 <= x < y < |ParseResult(texts)| ==> ParseResult(texts)[x].title != ParseResult(texts)[y].title
  {
    var d := Dedup(Positions(ScanPages(texts)));
    DedupUnique(Positions(ScanPages(texts)));
    var ss := ParseResult(texts);
    assert forall x :: 0 <= x < |ss| ==> ss[x].title == d[x].title;
  }

  /** Each section starts on the page of the first accepted occurrence of
      its title, and every accepted title has a section. */
  lemma ParseResultFirst(texts: seq<string>, x: nat) returns (j: nat)
    requires x < |ParseResult(texts)|
    ensures var s := ParseResult(texts)[x];
            var hs := Positions(ScanPages(texts));
            j < |hs| && hs[j] == Hit(s.title, s.startPage)
            && forall y :: 0 <= y < j ==> hs[y].title != s.title
  {
    var hs := Positions(ScanPages(texts));
    j := DedupFirst(hs, Dedup(hs)[x]);
  }

  lemma ParseResultComplete(texts: seq<string>, h: Hit)
    requires h in Positions(ScanPages(texts))
    ensures exists x :: 0 <= x < |ParseResult(texts)| && ParseResult(texts)[x].title == h.title
  {
    var hs := Positions(ScanPages(texts));
    TitleSetMember(hs, h.title);
    DedupTitles(hs);
    var d := Dedup(hs);
    TitleSetMember(d, h.title);
    var x :| 0 <= x < |d| && d[x].title == h.title;
    assert ParseResult(texts)[x].title == d[x].title;
  }

  // ---------------------------------------------------------------- the procedure

  lemma HitsOnAppend(a: seq<string>, b: seq<string>, n: nat)
    ensures HitsOn(a + b, n) == HitsOn(a, n) + HitsOn(b, n)
  {
  }

  lemma AllMatchesWithin(text: string)
    ensures WithinText(text, AllMatches(text))
  {
  }

  lemma MatchTitlesStep(text: string, mss: seq<seq<Match>>, j: nat)
    requires WithinText(text, mss) && j < |mss|
    ensures MatchTitles(text, mss[..j + 1]) == MatchTitles(text, mss[..j]) + AcceptedTitles(text, mss[j])
  {
    assert mss[..j + 1][..j] == mss[..j];
  }

  lemma PageHitsStep(text: string, mss: seq<seq<Match>>, j: nat, hits: seq<Hit>, n: nat)
    requires WithinText(text, mss) && j < |mss|
    ensures hits + HitsOn(MatchTitles(text, mss[..j + 1]), n)
            == (hits + HitsOn(MatchTitles(text, mss[..j]), n)) + HitsOn(AcceptedTitles(text, mss[j]), n)
  {
    MatchTitlesStep(text, mss, j);
    HitsOnAppend(MatchTitles(text, mss[..j]), AcceptedTitles(text, mss[j]), n);
  }

  lemma PositionsStep(scans: seq<PageScan>, i: nat)
    requires i < |scans|
    ensures Positions(scans[..i + 1])
            == Positions(scans[..i]) + (if scans[i].suppressed then [] else HitsOn(scans[i].titles, i + 1))
  {
    assert scans[..i + 1] == scans[..i] + [scans[i]];
    PositionsSnoc(scans[..i], scans[i]);
  }

  /** Appends the hits of the matches `ms` of one pattern on page `n`:
      matches starting after offset 100 are skipped, the others give their
      title. */
  method AppendMatchHits(text: string, ms: seq<Match>, n: nat, hits: seq<Hit>) returns (out: seq<Hit>)
    requires forall x :: 0 <= x < |ms| ==> ms[x].start <= ms[x].end <= |text|
    ensures out == hits + HitsOn(AcceptedTitles(text, ms), n)
  {
    out := hits;
    var x := 0;
    while x < |ms|
      invariant 0 <= x <= |ms|
      invariant out == hits + HitsOn(AcceptedTitles(text, ms[..x]), n)
    {
      var m := ms[x];
      assert ms[..x + 1][..x] == ms[..x];
      var ts := AcceptedTitles(text, ms[..x]);
      if m.start <= MaxOffset {
        var title := CollapseSpaces(Strip(text[m.start..m.end]));
        HitsOnAppend(ts, [title], n);
        out := out + [Hit(title, n)];
      } else {
        assert ts + [] == ts;
      }
      x := x + 1;
    }
    assert ms[..|ms|] == ms;
  }

  /** Appends the hits of page `n`, pattern after pattern. */
  method AppendPageHits(text: string, n: nat, hits: seq<Hit>) returns (out: seq<Hit>)
    ensures out == hits + HitsOn(PageTitles(text), n)
  {
    ghost var mss := AllMatches(text);
    AllMatchesWithin(text);
    out := hits;
    var j := 0;
    while j < |Kinds|
      invariant 0 <= j <= |Kinds|
      invariant out == hits + HitsOn(MatchTitles(text, mss[..j]), n)
    {
      var ms := FindAll(Kinds[j], text, 0);
      PageHitsStep(text, mss, j, hits, n);
      out := AppendMatchHits(text, ms, n, out);
      j := j + 1;
    }
    assert mss[..|Kinds|] == mss;
  }

  /** Appends the hits of page `n`, unless it is one of pages 1 to 5 and
      has more than three matches in all. */
  method AppendPage(text: string, n: nat, positions: seq<Hit>) returns (out: seq<Hit>)
    ensures out == positions + (if Suppressed(n, text) then [] else HitsOn(PageTitles(text), n))
  {
    if n <= FrontPages && HitCount(text) > FrontPageHitLimit {
      out := positions;
      assert out == out + [];
    } else {
      out := AppendPageHits(text, n, positions);
    }
  }

  /** The hits of every page, in page order. */
  method CollectPositions(texts: seq<string>) returns (positions: seq<Hit>)
    ensures positions == Positions(ScanPages(texts))
  {
    ghost var scans := ScanPages(texts);
    positions := [];
    var i := 0;
    while i < |texts|
      invariant 0 <= i <= |texts|
      invariant positions == Positions(scans[..i])
    {
      PositionsStep(scans, i);
      assert scans[i] == ScanPage(i + 1, texts[i]);
      positions := AppendPage(texts[i], i + 1, positions);
      i := i + 1;
    }
    assert scans[..|texts|] == scans;
  }

  /** Keeps the first hit of every title, with a set of the titles seen. */
  method UniqueSections(positions: seq<Hit>) returns (unique: seq<Hit>)
    ensures unique == Dedup(positions)
  {
    var seen: set<string> := {};
    unique := [];
    var i := 0;
    while i < |positions|
      invariant 0 <= i <= |positions|
      invariant seen == TitleSet(positions[..i])
      invariant unique == Dedup(positions[..i])
    {
      var h := positions[i];
      assert positions[..i + 1][..i] == positions[..i];
      if h.title !in seen {
        seen := seen + {h.title};
        unique := unique + [h];
      } else {
        assert unique + [] == unique;
      }
      i := i + 1;
    }
    assert positions[..|positions|] == positions;
  }

  /** Gives every entry its end page. */
  method AssignRanges(unique: seq<Hit>, total: nat) returns (results: seq<Section>)
    ensures results == Ranges(unique, total)
  {
    results := [];
    var i := 0;
    while i < |unique|
      invariant 0 <= i <= |unique|
      invariant |results| == i
      invariant forall x :: 0 <= x < i ==> results[x] == Section(unique[x].title, unique[x].page, EndPage(unique, x, total))
    {
      var startPage := unique[i].page;
      var endPage: nat;
      if i < |unique| - 1 {
        var nextStart := unique[i + 1].page;
        endPage := if nextStart > startPage then nextStart - 1 else startPage;
      } else {
        endPage := total;
      }
      results := results + [Section(unique[i].title, startPage, endPage)];
      i := i + 1;
    }
  }

  /** `parse_pdf` over the page texts: `texts[i]` is the text of page
      `i + 1`, the empty string when a page has none. */
  method ParsePdf(texts: seq<string>) returns (results: seq<Section>)
    ensures results == ParseResult(texts)
  {
    var positions := CollectPositions(texts);
    var unique := UniqueSections(positions);
    results := AssignRanges(unique, |texts|);
  }
}
