/** The redaction planner of `clean_pdf` (utiles/process_pdf.py): for each
    page, in order, the rectangles to blank out — every flagged text span
    grown by a 2-unit margin, then every image placement that is tiny, a
    repeat of an image kept earlier in the run, or a small banner touching
    the header or footer band. The run-scoped set of seen image fingerprints
    only grows, page after page. */
module Cleaner {
  import opened Text
  import opened Wrappers
  import opened PageModel
  import opened Classifier

  /** Margin added on every side of a removed text span. */
  const TextMargin: real := 2.0

  /** Images with fewer pixels than this are always removed. */
  const TinyImageArea: int := 3000

  /** Images with fewer pixels than this are removed when they touch the
      header or footer band. */
  const BannerImageArea: int := 30000

  /** Number of leading sample bytes that are fingerprinted. */
  const SampleLimit: nat := 1000

  /** An image fingerprint. The model uses the hashed bytes themselves: two
      fingerprints are equal exactly when the sample prefixes are. */
  type Fingerprint = seq<bv8>

  /** The fingerprint of an image: its first min(1000, len) sample bytes. */
  function FingerprintOf(samples: seq<bv8>): (f: Fingerprint)
    ensures f <= samples && |f| <= SampleLimit
    ensures |samples| <= SampleLimit ==> f == samples
    ensures |samples| > SampleLimit ==> |f| == SampleLimit
  {
    samples[..if |samples| < SampleLimit then |samples| else SampleLimit]
  }

  // ---------------------------------------------------------------- text spans

  /** A span is removed when its stripped text is non-empty and the
      classifier flags it. */
  predicate SpanFlagged(s: Span, pageArea: real) {
    var t := Strip(s.text);
    t != [] && ShouldRemoveText(t, s.size, s.flags, Area(s.bbox), pageArea)
  }

  /** The span decision the planner applies on a page of the given area. */
  function FlaggedOn(pageArea: real): Span -> bool {
    s => SpanFlagged(s, pageArea)
  }

  /** The rectangles contributed by a run of spans, in order, for a span
      decision `flagged`. */
  function SpanRects(spans: seq<Span>, flagged: Span -> bool): (rs: seq<Rect>)
    ensures |rs| <= |spans|
  {
    if spans == [] then []
    else
      var s := spans[|spans| - 1];
      SpanRects(spans[..|spans| - 1], flagged)
      + (if flagged(s) then [Expand(s.bbox, TextMargin)] else [])
  }

  function LineRects(lines: seq<seq<Span>>, flagged: Span -> bool): seq<Rect> {
    if lines == [] then []
    else LineRects(lines[..|lines| - 1], flagged) + SpanRects(lines[|lines| - 1], flagged)
  }

  function BlockRects(blocks: seq<Block>, flagged: Span -> bool): seq<Rect> {
    if blocks == [] then []
    else
      BlockRects(blocks[..|blocks| - 1], flagged)
      + match blocks[|blocks| - 1]
        case TextBlock(lines) => LineRects(lines, flagged)
        case OtherBlock => []
  }

  /** The text rectangles of a page. */
  function TextRects(p: Page): seq<Rect> {
    BlockRects(p.blocks, FlaggedOn(PageArea(p)))
  }

  /** Every flagged span contributes its bbox grown by the margin. */
  lemma {:induction false} FlaggedSpanRedacted(spans: seq<Span>, flagged: Span -> bool, k: nat)
    requires k < |spans| && flagged(spans[k])
    ensures Expand(spans[k].bbox, TextMargin) in SpanRects(spans, flagged)
  {
    var n := |spans| - 1;
    if k < n {
      assert spans[..n][k] == spans[k];
      FlaggedSpanRedacted(spans[..n], flagged, k);
    }
  }

  /** Every rectangle of a run of spans is the grown bbox of a flagged span
      of the run (so a span with empty stripped text contributes nothing). */
  lemma {:induction false} SpanRectHasSource(spans: seq<Span>, flagged: Span -> bool, r: Rect) returns (k: nat)
    requires r in SpanRects(spans, flagged)
    ensures k < |spans| && flagged(spans[k]) && r == Expand(spans[k].bbox, TextMargin)
  {
    var n := |spans| - 1;
    var last := spans[n];
    if flagged(last) && r == Expand(last.bbox, TextMargin) {
      k := n;
    } else {
      assert r in SpanRects(spans[..n], flagged);
      k := SpanRectHasSource(spans[..n], flagged, r);
      assert spans[..n][k] == spans[k];
    }
  }

  lemma {:induction false} FlaggedLineSpanRedacted(lines: seq<seq<Span>>, flagged: Span -> bool, l: nat, k: nat)
    requires l < |lines| && k < |lines[l]| && flagged(lines[l][k])
    ensures Expand(lines[l][k].bbox, TextMargin) in LineRects(lines, flagged)
  {
    var n := |lines| - 1;
    if l < n {
      assert lines[..n][l] == lines[l];
      FlaggedLineSpanRedacted(lines[..n], flagged, l, k);
    } else {
      FlaggedSpanRedacted(lines[l], flagged, k);
    }
  }

  lemma {:induction false} FlaggedBlockSpanRedacted(blocks: seq<Block>, flagged: Span -> bool, b: nat, l: nat, k: nat)
    requires b < |blocks| && blocks[b].TextBlock?
    requires l < |blocks[b].lines| && k < |blocks[b].lines[l]| && flagged(blocks[b].lines[l][k])
    ensures Expand(blocks[b].lines[l][k].bbox, TextMargin) in BlockRects(blocks, flagged)
  {
    var n := |blocks| - 1;
    if b < n {
      assert blocks[..n][b] == blocks[b];
      FlaggedBlockSpanRedacted(blocks[..n], flagged, b, l, k);
    } else {
      FlaggedLineSpanRedacted(blocks[b].lines, flagged, l, k);
    }
  }

  /** Every span of a text block whose stripped text is non-empty and
      flagged by the classifier is redacted with its bbox grown by 2 on each
      side. */
  lemma FlaggedSpanOnPageRedacted(p: Page, b: nat, l: nat, k: nat)
    requires b < |p.blocks| && p.blocks[b].TextBlock?
    requires l < |p.blocks[b].lines| && k < |p.blocks[b].lines[l]|
    requires SpanFlagged(p.blocks[b].lines[l][k], PageArea(p))
    ensures Expand(p.blocks[b].lines[l][k].bbox, TextMargin) in TextRects(p)
  {
    FlaggedBlockSpanRedacted(p.blocks, FlaggedOn(PageArea(p)), b, l, k);
  }

  lemma {:induction false} LineRectHasSource(lines: seq<seq<Span>>, flagged: Span -> bool, r: Rect) returns (l: nat, k: nat)
    requires r in LineRects(lines, flagged)
    ensures l < |lines| && k < |lines[l]| && flagged(lines[l][k]) && r == Expand(lines[l][k].bbox, TextMargin)
  {
    var n := |lines| - 1;
    if r in SpanRects(lines[n], flagged) {
      l := n;
      k := SpanRectHasSource(lines[n], flagged, r);
    } else {
      l, k := LineRectHasSource(lines[..n], flagged, r);
      assert lines[..n][l] == lines[l];
    }
  }

  lemma {:induction false} BlockRectHasSource(blocks: seq<Block>, flagged: Span -> bool, r: Rect) returns (b: nat, l: nat, k: nat)
    requires r in BlockRects(blocks, flagged)
    ensures b < |blocks| && blocks[b].TextBlock? && l < |blocks[b].lines| && k < |blocks[b].lines[l]|
    ensures flagged(blocks[b].lines[l][k]) && r == Expand(blocks[b].lines[l][k].bbox, TextMargin)
  {
    var n := |blocks| - 1;
    if blocks[n].TextBlock? && r in LineRects(blocks[n].lines, flagged) {
      b := n;
      l, k := LineRectHasSource(blocks[n].lines, flagged, r);
    } else {
      b, l, k := BlockRectHasSource(blocks[..n], flagged, r);
      assert blocks[..n][b] == blocks[b];
    }
  }

  /** Every text rectangle of a page is the grown bbox of a span of a text
      block whose stripped text is non-empty and flagged: spans with empty
      stripped text contribute nothing. */
  lemma TextRectHasSource(p: Page, r: Rect) returns (b: nat, l: nat, k: nat)
    requires r in TextRects(p)
    ensures b < |p.blocks| && p.blocks[b].TextBlock? && l < |p.blocks[b].lines| && k < |p.blocks[b].lines[l]|
    ensures var s := p.blocks[b].lines[l][k];
            SpanFlagged(s, PageArea(p)) && r == Expand(s.bbox, TextMargin)
  {
    b, l, k := BlockRectHasSource(p.blocks, FlaggedOn(PageArea(p)), r);
  }

  // ---------------------------------------------------------------- images

  /** The top 15% of the page. */
  function HeaderBand(p: Page): Rect {
    Rect(0.0, 0.0, p.width, p.height * 0.15)
  }

  /** The bottom 15% of the page. */
  function FooterBand(p: Page): Rect {
    Rect(0.0, p.height * 0.85, p.width, p.height)
  }

  /** Why a placement is removed, or that it is kept. */
  datatype Decision = TooSmall | Duplicate | Banner | Kept

  /** The decision for one placement rectangle `r` of an image with `area`
      pixels and fingerprint `fp`, given the fingerprints seen so far. */
  function PlacementDecision(area: int, fp: Fingerprint, r: Rect, seen: set<Fingerprint>, p: Page): Decision {
    if area < TinyImageArea then TooSmall
    else if fp in seen then Duplicate
    else if area < BannerImageArea && (Intersects(HeaderBand(p), r) || Intersects(FooterBand(p), r)) then Banner
    else Kept
  }

  /** The planner's state within a page: rectangles so far and the seen set. */
  datatype Plan = Plan(rects: seq<Rect>, seen: set<Fingerprint>)

  /** One placement: a removed placement appends its rectangle; a kept one
      registers the fingerprint and appends nothing. */
  function PlacementStep(pl: Plan, area: int, fp: Fingerprint, r: Rect, p: Page): (q: Plan)
    ensures area < TinyImageArea || fp in pl.seen ==> q == Plan(pl.rects + [r], pl.seen)
    ensures area >= TinyImageArea && fp !in pl.seen ==>
              var banner := area < BannerImageArea && (Intersects(HeaderBand(p), r) || Intersects(FooterBand(p), r));
              q == if banner then Plan(pl.rects + [r], pl.seen) else Plan(pl.rects, pl.seen + {fp})
    ensures fp in q.seen - pl.seen ==>
              area >= TinyImageArea && fp !in pl.seen
              && !(area < BannerImageArea && (Intersects(HeaderBand(p), r) || Intersects(FooterBand(p), r)))
    ensures pl.seen <= q.seen <= pl.seen + {fp}
    ensures q.rects == pl.rects || q.rects == pl.rects + [r]
    ensures (q.rects == pl.rects + [r]) != (fp in q.seen - pl.seen)
  {
    if PlacementDecision(area, fp, r, pl.seen, p) == Kept then Plan(pl.rects, pl.seen + {fp})
    else Plan(pl.rects + [r], pl.seen)
  }

  /** All placements of one image on the page, in order. */
  function PlacementsPlan(pl: Plan, area: int, fp: Fingerprint, rs: seq<Rect>, p: Page): (q: Plan)
    ensures pl.rects <= q.rects && |q.rects| <= |pl.rects| + |rs|
    ensures pl.seen <= q.seen <= pl.seen + {fp}
  {
    if rs == [] then pl
    else PlacementStep(PlacementsPlan(pl, area, fp, rs[..|rs| - 1], p), area, fp, rs[|rs| - 1], p)
  }

  /** Once a fingerprint is registered, every placement of that image is
      removed and nothing is registered. */
  lemma {:induction false} SeenImageFullyRedacted(pl: Plan, area: int, fp: Fingerprint, rs: seq<Rect>, p: Page)
    requires fp in pl.seen
    ensures PlacementsPlan(pl, area, fp, rs, p) == Plan(pl.rects + rs, pl.seen)
  {
    if rs != [] {
      var init := rs[..|rs| - 1];
      SeenImageFullyRedacted(pl, area, fp, init, p);
      assert pl.rects + init + [rs[|rs| - 1]] == pl.rects + rs;
    }
  }

  lemma {:induction false} PlacementsSplit(pl: Plan, area: int, fp: Fingerprint, a: seq<Rect>, b: seq<Rect>, p: Page)
    ensures PlacementsPlan(pl, area, fp, a + b, p) == PlacementsPlan(PlacementsPlan(pl, area, fp, a, p), area, fp, b, p)
  {
    if b != [] {
      assert (a + b)[..|a + b| - 1] == a + b[..|b| - 1];
      PlacementsSplit(pl, area, fp, a, b[..|b| - 1], p);
    } else {
      assert a + b == a;
    }
  }

  /** On one page, once a placement of an image is kept, every later
      placement of the same image is removed. */
  lemma KeptThenLaterRedacted(pl: Plan, area: int, fp: Fingerprint, rs: seq<Rect>, j: nat, p: Page)
    requires j < |rs|
    requires PlacementDecision(area, fp, rs[j], PlacementsPlan(pl, area, fp, rs[..j], p).seen, p) == Kept
    ensures PlacementsPlan(pl, area, fp, rs, p).rects == PlacementsPlan(pl, area, fp, rs[..j], p).rects + rs[j + 1..]
  {
    var before := PlacementsPlan(pl, area, fp, rs[..j], p);
    assert rs[..j + 1][..j] == rs[..j];
    var upto := PlacementsPlan(pl, area, fp, rs[..j + 1], p);
    assert upto == Plan(before.rects, before.seen + {fp});
    PlacementsSplit(pl, area, fp, rs[..j + 1], rs[j + 1..], p);
    assert rs[..j + 1] + rs[j + 1..] == rs;
    SeenImageFullyRedacted(upto, area, fp, rs[j + 1..], p);
  }

  /** One image: skipped when its pixmap or its placements are unavailable. */
  function ImagePlan(pl: Plan, img: ImageRef, p: Page): (q: Plan)
    ensures pl.rects <= q.rects && pl.seen <= q.seen
  {
    match img.pixmap
    case None => pl
    case Some(px) =>
      match img.placements
      case None => pl
      case Some(rs) => PlacementsPlan(pl, px.width * px.height, FingerprintOf(px.samples), rs, p)
  }

  /** The images of a page, in listing order. */
  function ImagesPlan(pl: Plan, imgs: seq<ImageRef>, p: Page): (q: Plan)
    ensures pl.rects <= q.rects && pl.seen <= q.seen
  {
    if imgs == [] then pl
    else ImagePlan(ImagesPlan(pl, imgs[..|imgs| - 1], p), imgs[|imgs| - 1], p)
  }

  lemma {:induction false} ImagesPlanPrefix(pl: Plan, imgs: seq<ImageRef>, m: nat, p: Page)
    requires m <= |imgs|
    ensures ImagesPlan(pl, imgs[..m], p).rects <= ImagesPlan(pl, imgs, p).rects
    ensures ImagesPlan(pl, imgs[..m], p).seen <= ImagesPlan(pl, imgs, p).seen
    decreases |imgs| - m
  {
    if m < |imgs| {
      var init := imgs[..|imgs| - 1];
      assert init[..m] == imgs[..m];
      ImagesPlanPrefix(pl, init, m, p);
    } else {
      assert imgs[..m] == imgs;
    }
  }

  /** An image whose fingerprint was registered before it is reached has
      every placement removed. */
  lemma DuplicateImageRedacted(pl: Plan, imgs: seq<ImageRef>, m: nat, p: Page, px: Pixmap, rs: seq<Rect>)
    requires m < |imgs| && imgs[m] == ImageRef(Some(px), Some(rs))
    requires FingerprintOf(px.samples) in ImagesPlan(pl, imgs[..m], p).seen
    ensures forall r :: r in rs ==> r in ImagesPlan(pl, imgs, p).rects
  {
    var before := ImagesPlan(pl, imgs[..m], p);
    assert imgs[..m + 1][..m] == imgs[..m];
    SeenImageFullyRedacted(before, px.width * px.height, FingerprintOf(px.samples), rs, p);
    assert ImagesPlan(pl, imgs[..m + 1], p).rects == before.rects + rs;
    ImagesPlanPrefix(pl, imgs, m + 1, p);
    var fin := ImagesPlan(pl, imgs, p).rects;
    forall r | r in rs
      ensures r in fin
    {
      var k :| 0 <= k < |rs| && rs[k] == r;
      assert fin[|before.rects| + k] == r;
    }
  }

  // ---------------------------------------------------------------- pages

  /** One page: the text rectangles, then the image rectangles. */
  function PagePlan(p: Page, seen: set<Fingerprint>): (q: Plan)
    ensures TextRects(p) <= q.rects && seen <= q.seen
  {
    ImagesPlan(Plan(TextRects(p), seen), p.images, p)
  }

  /** The plan of a whole run: the rectangles of each page, and the final
      seen set. */
  datatype Cleaned = Cleaned(pages: seq<seq<Rect>>, seen: set<Fingerprint>)

  /** The pages in order, threading the seen set from each page to the next. */
  function CleanPlan(pages: seq<Page>, seen: set<Fingerprint>): (c: Cleaned)
    ensures |c.pages| == |pages| && seen <= c.seen
  {
    if pages == [] then Cleaned([], seen)
    else
      var before := CleanPlan(pages[..|pages| - 1], seen);
      var pp := PagePlan(pages[|pages| - 1], before.seen);
      Cleaned(before.pages + [pp.rects], pp.seen)
  }

  lemma {:induction false} CleanPlanPrefix(pages: seq<Page>, seen: set<Fingerprint>, i: nat)
    requires i <= |pages|
    ensures CleanPlan(pages[..i], seen).pages == CleanPlan(pages, seen).pages[..i]
    ensures CleanPlan(pages[..i], seen).seen <= CleanPlan(pages, seen).seen
    decreases |pages| - i
  {
    if i < |pages| {
      var init := pages[..|pages| - 1];
      assert init[..i] == pages[..i];
      CleanPlanPrefix(init, seen, i);
    } else {
      assert pages[..i] == pages;
    }
  }

  /** An image whose fingerprint was registered on an earlier page (or
      earlier on the same page) has every placement removed on its page. */
  lemma RegisteredImageRedactedLater(pages: seq<Page>, seen: set<Fingerprint>, j: nat, m: nat, px: Pixmap, rs: seq<Rect>)
    requires j < |pages| && m < |pages[j].images|
    requires pages[j].images[m] == ImageRef(Some(px), Some(rs))
    requires FingerprintOf(px.samples) in CleanPlan(pages[..j], seen).seen
             || FingerprintOf(px.samples) in ImagesPlan(Plan(TextRects(pages[j]), CleanPlan(pages[..j], seen).seen), pages[j].images[..m], pages[j]).seen
    ensures forall r :: r in rs ==> r in CleanPlan(pages, seen).pages[j]
  {
    var before := CleanPlan(pages[..j], seen);
    var pl := Plan(TextRects(pages[j]), before.seen);
    assert FingerprintOf(px.samples) in ImagesPlan(pl, pages[j].images[..m], pages[j]).seen;
    DuplicateImageRedacted(pl, pages[j].images, m, pages[j], px, rs);
    assert pages[..j + 1][..j] == pages[..j];
    CleanPlanPrefix(pages, seen, j + 1);
    assert CleanPlan(pages[..j + 1], seen).pages[j] == PagePlan(pages[j], before.seen).rects;
  }

  // ---------------------------------------------------------------- the planner

  /** The text part of a page's plan: walk blocks, lines and spans in order
      and collect the grown bbox of every flagged span. */
  method CollectTextRects(page: Page) returns (rects: seq<Rect>)
    ensures rects == TextRects(page)
  {
    rects := CollectBlockRects(page.blocks, FlaggedOn(PageArea(page)));
  }

  /** The block walk, for a span decision `flagged`: image blocks are
      skipped. */
  method CollectBlockRects(blocks: seq<Block>, flagged: Span -> bool) returns (rects: seq<Rect>)
    ensures rects == BlockRects(blocks, flagged)
  {
    rects := [];
    var b := 0;
    while b < |blocks|
      invariant 0 <= b <= |blocks|
      invariant rects == BlockRects(blocks[..b], flagged)
    {
      assert blocks[..b + 1][..b] == blocks[..b];
      if blocks[b].TextBlock? {
        var more := CollectLineRects(blocks[b].lines, flagged);
        rects := rects + more;
      }
      b := b + 1;
    }
    assert blocks[..b] == blocks;
  }

  method CollectLineRects(lines: seq<seq<Span>>, flagged: Span -> bool) returns (rects: seq<Rect>)
    ensures rects == LineRects(lines, flagged)
  {
    rects := [];
    var l := 0;
    while l < |lines|
      invariant 0 <= l <= |lines|
      invariant rects == LineRects(lines[..l], flagged)
    {
      assert lines[..l + 1][..l] == lines[..l];
      var more := CollectSpanRects(lines[l], flagged);
      rects := rects + more;
      l := l + 1;
    }
    assert lines[..l] == lines;
  }

  method CollectSpanRects(spans: seq<Span>, flagged: Span -> bool) returns (rects: seq<Rect>)
    ensures rects == SpanRects(spans, flagged)
  {
    rects := [];
    var k := 0;
    while k < |spans|
      invariant 0 <= k <= |spans|
      invariant rects == SpanRects(spans[..k], flagged)
    {
      assert spans[..k + 1][..k] == spans[..k];
      var s := spans[k];
      if flagged(s) {
        rects := rects + [Expand(s.bbox, TextMargin)];
      }
      k := k + 1;
    }
    assert spans[..k] == spans;
  }

  /** The run-scoped planner: it owns the set of fingerprints seen so far. */
  class PageCleaner {
    var seen: set<Fingerprint>

    constructor ()
      ensures seen == {}
    {
      seen := {};
    }

    /** Plan the removals of one page and register the images it keeps. */
    method ProcessPage(page: Page) returns (rects: seq<Rect>)
      modifies this
      ensures Plan(rects, seen) == PagePlan(page, old(seen))
      ensures old(seen) <= seen
    {
      rects := CollectTextRects(page);
      ghost var start := Plan(rects, seen);
      var images := page.images;
      var i := 0;
      while i < |images|
        invariant 0 <= i <= |images|
        invariant Plan(rects, seen) == ImagesPlan(start, images[..i], page)
      {
        assert images[..i + 1][..i] == images[..i];
        var img := images[i];
        if img.pixmap.Some? && img.placements.Some? {
          var px := img.pixmap.value;
          var pixels := px.width * px.height;
          var fp := FingerprintOf(px.samples);
          var rs := img.placements.value;
          ghost var before := Plan(rects, seen);
          var j := 0;
          while j < |rs|
            invariant 0 <= j <= |rs|
            invariant Plan(rects, seen) == PlacementsPlan(before, pixels, fp, rs[..j], page)
          {
            assert rs[..j + 1][..j] == rs[..j];
            var r := rs[j];
            if pixels < TinyImageArea || fp in seen {
              rects := rects + [r];
            } else if pixels < BannerImageArea && (Intersects(HeaderBand(page), r) || Intersects(FooterBand(page), r)) {
              rects := rects + [r];
            } else {
              seen := seen + {fp};
            }
            j := j + 1;
          }
          assert rs[..j] == rs;
        }
        i := i + 1;
      }
      assert images[..i] == images;
    }
  }

  /** `clean_pdf`'s page loop: the rectangles to remove from each page, with
      one seen set for the whole run. */
  method CleanPdf(pages: seq<Page>) returns (plans: seq<seq<Rect>>)
    ensures plans == CleanPlan(pages, {}).pages
    ensures |plans| == |pages|
  {
    var cleaner := new PageCleaner();
    plans := [];
    var i := 0;
    while i < |pages|
      invariant 0 <= i <= |pages|
      invariant CleanPlan(pages[..i], {}) == Cleaned(plans, cleaner.seen)
    {
      assert pages[..i + 1][..i] == pages[..i];
      var rects := cleaner.ProcessPage(pages[i]);
      plans := plans + [rects];
      i := i + 1;
    }
    assert pages[..i] == pages;
  }
}
