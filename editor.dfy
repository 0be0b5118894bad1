/** The directed-action redaction tool of utiles/pdf_editor.py: a list of
    actions, each naming a kind of content, a scope, a page and a box, is
    applied in order to a document. A page collects redaction annotations
    and commits them in one step; the text search of the document library
    is a parameter. */
module Editor {
  import opened Wrappers
  import PageModel

  type Rect = PageModel.Rect

  /** One page: an identifier of its original content, the redaction
      annotations added since the last commit, and the batches committed so
      far, oldest first. */
  datatype Page = Page(id: nat, annots: seq<Rect>, applied: seq<seq<Rect>>)

  /** `page.add_redact_annot(rect)` (the white fill is not modelled). */
  function AddAnnot(p: Page, r: Rect): (q: Page)
    ensures q.id == p.id && q.applied == p.applied && q.annots == p.annots + [r]
  {
    p.(annots := p.annots + [r])
  }

  /** `page.apply_redactions()`: the pending annotations become one
      committed batch. */
  function ApplyRedactions(p: Page): (q: Page)
    ensures q.id == p.id && q.annots == [] && q.applied == p.applied + [p.annots]
  {
    Page(p.id, [], p.applied + [p.annots])
  }

  /** `fitz.Rect(bbox)`: four coordinates make a rectangle; anything else
      raises. */
  function ToRect(b: seq<real>): Option<Rect> {
    if |b| == 4 then Some(PageModel.Rect(b[0], b[1], b[2], b[3])) else None
  }

  /** The page after an attempt, and whether the attempt ran to the end. */
  datatype Attempt = Attempt(page: Page, ok: bool)

  /** Adds one annotation per box, in order, stopping at the first box that
      is not a rectangle. */
  function AddBoxes(p: Page, bboxes: seq<seq<real>>): Attempt
    decreases |bboxes|
  {
    if bboxes == [] then Attempt(p, true)
    else
      match ToRect(bboxes[0])
      case None => Attempt(p, false)
      case Some(r) => AddBoxes(AddAnnot(p, r), bboxes[1..])
  }

  /** `redact_by_bboxes` on one page: annotate every box, then commit. A
      box that is not a rectangle raises before the commit, leaving the
      annotations already added pending. */
  function RedactBboxes(p: Page, bboxes: seq<seq<real>>): Attempt {
    var a := AddBoxes(p, bboxes);
    if a.ok then Attempt(ApplyRedactions(a.page), true) else a
  }

  /** The rectangles of a list of boxes that are all rectangles. */
  function Rects(bboxes: seq<seq<real>>): (rs: seq<Rect>)
    requires forall k :: 0 <= k < |bboxes| ==> ToRect(bboxes[k]).Some?
    ensures |rs| == |bboxes|
    ensures forall k :: 0 <= k < |bboxes| ==> rs[k] == ToRect(bboxes[k]).value
  {
    if bboxes == [] then [] else [ToRect(bboxes[0]).value] + Rects(bboxes[1..])
  }

  predicate AllRects(bboxes: seq<seq<real>>) {
    forall k :: 0 <= k < |bboxes| ==> ToRect(bboxes[k]).Some?
  }

  lemma AllRectsCons(bboxes: seq<seq<real>>)
    requires bboxes != []
    ensures AllRects(bboxes) <==> ToRect(bboxes[0]).Some? && AllRects(bboxes[1..])
  {
    var rest := bboxes[1..];
    if ToRect(bboxes[0]).Some? && AllRects(rest) {
      forall k | 0 <= k < |bboxes| ensures ToRect(bboxes[k]).Some? {
        if k > 0 { assert bboxes[k] == rest[k - 1]; }
      }
    }
    if AllRects(bboxes) {
      forall k | 0 <= k < |rest| ensures ToRect(rest[k]).Some? {
        assert rest[k] == bboxes[k + 1];
      }
    }
  }

  /** Adding boxes that are all rectangles appends their rectangles to the
      pending annotations; otherwise the attempt fails and nothing is
      committed. */
  lemma {:induction false} AddBoxesEffect(p: Page, bboxes: seq<seq<real>>)
    ensures AddBoxes(p, bboxes).ok <==> AllRects(bboxes)
    ensures AddBoxes(p, bboxes).page.id == p.id && AddBoxes(p, bboxes).page.applied == p.applied
    ensures AllRects(bboxes) ==> AddBoxes(p, bboxes).page.annots == p.annots + Rects(bboxes)
    decreases |bboxes|
  {
    if bboxes != [] {
      AllRectsCons(bboxes);
      var b := bboxes[0];
      if ToRect(b).Some? {
        var r := ToRect(b).value;
        var rest := bboxes[1..];
        AddBoxesEffect(AddAnnot(p, r), rest);
        if AllRects(bboxes) {
          assert Rects(bboxes) == [r] + Rects(rest);
          assert p.annots + [r] + Rects(rest) == p.annots + Rects(bboxes);
        }
      }
    }
  }

  /** `redact_by_bboxes` adds every rectangle and then commits the page
      exactly once; with a box that is not a rectangle nothing is
      committed. */
  lemma BboxesCommitOnce(p: Page, bboxes: seq<seq<real>>)
    ensures RedactBboxes(p, bboxes).ok <==> AllRects(bboxes)
    ensures RedactBboxes(p, bboxes).page.id == p.id
    ensures AllRects(bboxes) ==>
              RedactBboxes(p, bboxes).page == Page(p.id, [], p.applied + [p.annots + Rects(bboxes)])
    ensures !AllRects(bboxes) ==> RedactBboxes(p, bboxes).page.applied == p.applied
  {
    AddBoxesEffect(p, bboxes);
  }

  // ---------------------------------------------------------------- text search

  /** `search_for(text)` on a page: the rectangles of the occurrences of a
      string on the page, as the document library finds them. */
  type Search = (Page, string) -> seq<Rect>

  /** `hit_max=1000` */
  const HitMax: nat := 1000

  function Truncate(hs: seq<Rect>): (t: seq<Rect>)
    ensures |t| <= HitMax && t <= hs
    ensures |hs| <= HitMax ==> t == hs
  {
    if |hs| > HitMax then hs[..HitMax] else hs
  }

  /** Adds every rectangle in order (the loop over search hits). */
  function AddAll(p: Page, rs: seq<Rect>): (q: Page)
    ensures q == p.(annots := p.annots + rs)
    decreases |rs|
  {
    if rs == [] then p
    else
      var q := AddAll(AddAnnot(p, rs[0]), rs[1..]);
      assert p.annots + [rs[0]] + rs[1..] == p.annots + rs;
      q
  }

  /** `redact_by_text` on one page: annotate every hit; commit only when
      there was one. */
  function TextPage(p: Page, text: string, search: Search): Page {
    var hits := Truncate(search(p, text));
    var q := AddAll(p, hits);
    if hits != [] then ApplyRedactions(q) else q
  }

  /** `redact_by_text` over every page. */
  function TextAll(pages: seq<Page>, text: string, search: Search): (ps: seq<Page>)
    ensures |ps| == |pages|
    ensures forall i :: 0 <= i < |pages| ==> ps[i] == TextPage(pages[i], text, search)
  {
    seq(|pages|, i requires 0 <= i < |pages| => TextPage(pages[i], text, search))
  }

  /** A page with hits commits at most 1000 of them, in the order found, in
      one batch; a page without hits is left exactly as it was. */
  lemma TextPageEffect(p: Page, text: string, search: Search)
    ensures var hits := search(p, text);
            var q := TextPage(p, text, search);
            (hits == [] ==> q == p)
            && (hits != [] ==>
                  q.id == p.id && q.annots == []
                  && q.applied == p.applied + [p.annots + Truncate(hits)]
                  && |Truncate(hits)| <= HitMax && Truncate(hits) <= hits)
  {
    var hits := search(p, text);
    if hits == [] {
      assert Truncate(hits) == [];
      assert p.annots + [] == p.annots;
    } else {
      assert Truncate(hits) != [] by {
        if |hits| > HitMax { assert |Truncate(hits)| == HitMax; }
      }
    }
  }

  // ---------------------------------------------------------------- actions

  /** One action of the payload; an absent key is None. `page` is the
      number after `int(...)`. */
  datatype Action = Action(
    kind: Option<string>,
    scope: Option<string>,
    page: Option<int>,
    bbox: Option<seq<real>>,
    content: Option<string>)

  function GetOr<T>(o: Option<T>, d: T): T {
    match o
    case Some(v) => v
    case None => d
  }

  /** `act.get('scope', 'currentPage')` */
  function ScopeOf(a: Action): string { GetOr(a.scope, "currentPage") }

  /** `int(act.get('page', 1)) - 1`: the 0-based page index. */
  function PageIndex(a: Action): int { GetOr(a.page, 1) - 1 }

  /** `act.get('content', '')` */
  function ContentOf(a: Action): string { GetOr(a.content, "") }

  /** `kind in ('image', 'watermark', 'text') and bbox`: the only actions
      that do anything. A missing or empty box is falsy. */
  predicate Dispatched(a: Action) {
    a.kind.Some? && a.kind.value in ["image", "watermark", "text"]
    && a.bbox.Some? && a.bbox.value != []
  }

  /** An action other than a current-page one searches for its content
      when it is a text action or a watermark action with content. */
  predicate UsesSearch(a: Action) {
    a.kind == Some("text") || (a.kind == Some("watermark") && ContentOf(a) != [])
  }

  /** The box redacted on every page: a failure on one page is reported
      and the loop goes on. */
  function BoxAll(pages: seq<Page>, bbox: seq<real>): (ps: seq<Page>)
    ensures |ps| == |pages|
    ensures forall i :: 0 <= i < |pages| ==> ps[i] == RedactBboxes(pages[i], [bbox]).page
  {
    seq(|pages|, i requires 0 <= i < |pages| => RedactBboxes(pages[i], [bbox]).page)
  }

  /** The effect of one action: the new pages, or None when it raises. */
  function Step(pages: seq<Page>, a: Action, search: Search): Option<seq<Page>> {
    if !Dispatched(a) then Some(pages)
    else if ScopeOf(a) == "currentPage" then
      var i := PageIndex(a);
      if 0 <= i < |pages| then
        var r := RedactBboxes(pages[i], [a.bbox.value]);
        if r.ok then Some(pages[i := r.page]) else None
      else None
    else if UsesSearch(a) then Some(TextAll(pages, ContentOf(a), search))
    else Some(BoxAll(pages, a.bbox.value))
  }

  /** The actions applied in list order; None when one of them raises, in
      which case no output is written. */
  function Run(pages: seq<Page>, actions: seq<Action>, search: Search): Option<seq<Page>>
    decreases |actions|
  {
    if actions == [] then Some(pages)
    else
      match Step(pages, actions[0], search)
      case None => None
      case Some(ps) => Run(ps, actions[1..], search)
  }

  // ---------------------------------------------------------------- actions: lemmas

  /** An action with another type, or without a truthy box, changes
      nothing — even a text action, whose box is otherwise unused. */
  lemma IgnoredActionNoop(pages: seq<Page>, a: Action, search: Search)
    requires !a.kind.Some? || a.kind.value !in ["image", "watermark", "text"] || !a.bbox.Some? || a.bbox.value == []
    ensures Step(pages, a, search) == Some(pages)
  {
  }

  /** Without a scope an action works on one page; without a page number
      that page is the first. */
  lemma Defaults(a: Action)
    ensures a.scope.None? ==> ScopeOf(a) == "currentPage"
    ensures a.page.None? ==> PageIndex(a) == 0
    ensures a.page.Some? ==> PageIndex(a) == a.page.value - 1
  {
  }

  /** A current-page action commits its box on page `page` and on no other
      page; it raises when the page does not exist or the box is not four
      coordinates. */
  lemma CurrentPageOnly(pages: seq<Page>, a: Action, search: Search)
    requires Dispatched(a) && ScopeOf(a) == "currentPage"
    ensures var i := PageIndex(a);
            Step(pages, a, search).Some? <==> 0 <= i < |pages| && |a.bbox.value| == 4
    ensures var i := PageIndex(a);
            Step(pages, a, search).Some? ==>
              var ps := Step(pages, a, search).value;
              |ps| == |pages|
              && (forall j :: 0 <= j < |pages| && j != i ==> ps[j] == pages[j])
              && ps[i] == Page(pages[i].id, [], pages[i].applied + [pages[i].annots + [ToRect(a.bbox.value).value]])
  {
    var i := PageIndex(a);
    if 0 <= i < |pages| {
      var b := [a.bbox.value];
      BboxesCommitOnce(pages[i], b);
      if AllRects(b) {
        assert Rects(b) == [ToRect(a.bbox.value).value];
      }
      assert AllRects(b) <==> |a.bbox.value| == 4 by {
        assert b[0] == a.bbox.value;
      }
    }
  }

  /** A document-wide text action (or watermark action with content)
      ignores the box and commits, on every page with hits, at most 1000 of
      them; pages without hits are unchanged. */
  lemma SearchEveryPage(pages: seq<Page>, a: Action, search: Search)
    requires Dispatched(a) && ScopeOf(a) != "currentPage" && UsesSearch(a)
    ensures Step(pages, a, search).Some?
    ensures var ps := Step(pages, a, search).value;
            |ps| == |pages|
            && forall i :: 0 <= i < |pages| ==>
                 var hits := search(pages[i], ContentOf(a));
                 (hits == [] ==> ps[i] == pages[i])
                 && (hits != [] ==>
                       ps[i].annots == [] && ps[i].applied == pages[i].applied + [pages[i].annots + Truncate(hits)])
  {
    var ps := Step(pages, a, search).value;
    forall i | 0 <= i < |pages|
      ensures var hits := search(pages[i], ContentOf(a));
              (hits == [] ==> ps[i] == pages[i])
              && (hits != [] ==>
                    ps[i].annots == [] && ps[i].applied == pages[i].applied + [pages[i].annots + Truncate(hits)])
    {
      TextPageEffect(pages[i], ContentOf(a), search);
    }
  }

  /** A search that finds nothing on any page leaves the document as it
      was. */
  lemma NoHitsNoop(pages: seq<Page>, a: Action, search: Search)
    requires Dispatched(a) && ScopeOf(a) != "currentPage" && UsesSearch(a)
    requires forall i :: 0 <= i < |pages| ==> search(pages[i], ContentOf(a)) == []
    ensures Step(pages, a, search) == Some(pages)
  {
    SearchEveryPage(pages, a, search);
    var ps := Step(pages, a, search).value;
    assert forall i :: 0 <= i < |pages| ==> ps[i] == pages[i];
    assert ps == pages;
  }

  /** Any other document-wide action commits the same box on every page;
      when the box is not four coordinates every page fails on its own and
      the document is unchanged. */
  lemma BoxEveryPage(pages: seq<Page>, a: Action, search: Search)
    requires Dispatched(a) && ScopeOf(a) != "currentPage" && !UsesSearch(a)
    ensures Step(pages, a, search).Some?
    ensures |a.bbox.value| != 4 ==> Step(pages, a, search) == Some(pages)
    ensures |a.bbox.value| == 4 ==>
              var ps := Step(pages, a, search).value;
              |ps| == |pages|
              && forall i :: 0 <= i < |pages| ==>
                   ps[i] == Page(pages[i].id, [], pages[i].applied + [pages[i].annots + [ToRect(a.bbox.value).value]])
  {
    var b := [a.bbox.value];
    assert b[0] == a.bbox.value;
    assert AllRects(b) <==> |a.bbox.value| == 4;
    var ps := Step(pages, a, search).value;
    forall i | 0 <= i < |pages|
      ensures |a.bbox.value| != 4 ==> ps[i] == pages[i]
      ensures |a.bbox.value| == 4 ==>
                ps[i] == Page(pages[i].id, [], pages[i].applied + [pages[i].annots + [ToRect(a.bbox.value).value]])
    {
      BboxesCommitOnce(pages[i], b);
      if |a.bbox.value| == 4 {
        assert Rects(b) == [ToRect(a.bbox.value).value];
      } else {
        assert AddBoxes(pages[i], b) == Attempt(pages[i], false);
      }
    }
    if |a.bbox.value| != 4 {
      assert ps == pages;
    }
  }

  /** Running a list of actions is running its first part, then the rest. */
  lemma {:induction false} RunAppend(pages: seq<Page>, xs: seq<Action>, ys: seq<Action>, search: Search)
    ensures Run(pages, xs + ys, search)
            == match Run(pages, xs, search)
               case None => None
               case Some(ps) => Run(ps, ys, search)
    decreases |xs|
  {
    if xs == [] {
      assert xs + ys == ys;
    } else {
      assert (xs + ys)[0] == xs[0];
      assert (xs + ys)[1..] == xs[1..] + ys;
      match Step(pages, xs[0], search)
      case None =>
      case Some(ps) => RunAppend(ps, xs[1..], ys, search);
    }
  }

  /** The committed batches of a page only grow, and pages keep their
      number and contents. */
  predicate Grows(before: seq<Page>, after: seq<Page>) {
    |after| == |before|
    && forall i :: 0 <= i < |before| ==> after[i].id == before[i].id && before[i].applied <= after[i].applied
  }

  lemma GrowsTrans(a: seq<Page>, b: seq<Page>, c: seq<Page>)
    requires Grows(a, b) && Grows(b, c)
    ensures Grows(a, c)
  {
    forall i | 0 <= i < |a|
      ensures a[i].applied <= c[i].applied
    {
      assert a[i].applied <= b[i].applied && b[i].applied <= c[i].applied;
    }
  }

  lemma StepGrows(pages: seq<Page>, a: Action, search: Search)
    requires Step(pages, a, search).Some?
    ensures Grows(pages, Step(pages, a, search).value)
  {
    var ps := Step(pages, a, search).value;
    if Dispatched(a) {
      if ScopeOf(a) == "currentPage" {
        CurrentPageOnly(pages, a, search);
        var i := PageIndex(a);
        assert pages[i].applied <= ps[i].applied;
      } else if UsesSearch(a) {
        forall i | 0 <= i < |pages|
          ensures ps[i].id == pages[i].id && pages[i].applied <= ps[i].applied
        {
          TextPageEffect(pages[i], ContentOf(a), search);
        }
      } else {
        forall i | 0 <= i < |pages|
          ensures ps[i].id == pages[i].id && pages[i].applied <= ps[i].applied
        {
          BboxesCommitOnce(pages[i], [a.bbox.value]);
        }
      }
    }
  }

  /** A run that completes keeps the page count and every page's content,
      and only adds committed batches. */
  lemma {:induction false} RunGrows(pages: seq<Page>, actions: seq<Action>, search: Search)
    requires Run(pages, actions, search).Some?
    ensures Grows(pages, Run(pages, actions, search).value)
    decreases |actions|
  {
    if actions != [] {
      var ps := Step(pages, actions[0], search).value;
      StepGrows(pages, actions[0], search);
      RunGrows(ps, actions[1..], search);
      GrowsTrans(pages, ps, Run(pages, actions, search).value);
    }
  }

  // ---------------------------------------------------------------- the document

  /** An open document: its pages, updated in place. */
  class Document {
    var pages: seq<Page>

    constructor(pages0: seq<Page>)
      ensures pages == pages0
    {
      pages := pages0;
    }

    /** `redact_by_bboxes(doc, page_num, bboxes)`: raises (returns false)
        when the page does not exist or a box is not four coordinates. */
    method RedactByBboxes(pageNum: int, bboxes: seq<seq<real>>) returns (ok: bool)
      modifies this
      ensures ok <==> 0 <= pageNum < |old(pages)| && RedactBboxes(old(pages)[pageNum], bboxes).ok
      ensures 0 <= pageNum < |old(pages)| ==>
                pages == old(pages)[pageNum := RedactBboxes(old(pages)[pageNum], bboxes).page]
      ensures !(0 <= pageNum < |old(pages)|) ==> pages == old(pages)
    {
      if !(0 <= pageNum < |pages|) {
        return false;
      }
      var page := pages[pageNum];
      ghost var start := page;
      var k := 0;
      while k < |bboxes|
        invariant 0 <= k <= |bboxes|
        invariant pages == old(pages)
        invariant AddBoxes(start, bboxes) == AddBoxes(page, bboxes[k..])
      {
        assert bboxes[k..][1..] == bboxes[k + 1..];
        var rect := ToRect(bboxes[k]);
        if rect.None? {
          pages := pages[pageNum := page];
          return false;
        }
        page := AddAnnot(page, rect.value);
        k := k + 1;
      }
      page := ApplyRedactions(page);
      pages := pages[pageNum := page];
      ok := true;
    }

    /** The hits of `text` on page `i`, annotated and, when there are any,
        committed. */
    method RedactTextOnPage(i: nat, text: string, search: Search)
      requires i < |pages|
      modifies this
      ensures pages == old(pages)[i := TextPage(old(pages)[i], text, search)]
    {
      var page := pages[i];
      var textInstances := Truncate(search(page, text));
      ghost var start := page;
      var k := 0;
      while k < |textInstances|
        invariant 0 <= k <= |textInstances|
        invariant page == AddAll(start, textInstances[..k])
      {
        assert textInstances[..k + 1] == textInstances[..k] + [textInstances[k]];
        page := AddAnnot(page, textInstances[k]);
        k := k + 1;
      }
      assert textInstances[..k] == textInstances;
      if textInstances != [] {
        page := ApplyRedactions(page);
      }
      pages := pages[i := page];
    }

    /** `redact_by_text(doc, text)` */
    method RedactByText(text: string, search: Search)
      modifies this
      ensures pages == TextAll(old(pages), text, search)
    {
      var i := 0;
      while i < |pages|
        invariant 0 <= i <= |pages| && |pages| == |old(pages)|
        invariant forall j :: 0 <= j < i ==> pages[j] == TextPage(old(pages)[j], text, search)
        invariant forall j :: i <= j < |pages| ==> pages[j] == old(pages)[j]
      {
        RedactTextOnPage(i, text, search);
        i := i + 1;
      }
    }

    /** The box redacted on every page; a page that raises is skipped. */
    method RedactBoxEverywhere(bbox: seq<real>)
      modifies this
      ensures pages == BoxAll(old(pages), bbox)
    {
      var pnum := 0;
      while pnum < |pages|
        invariant 0 <= pnum <= |pages| && |pages| == |old(pages)|
        invariant forall j :: 0 <= j < pnum ==> pages[j] == RedactBboxes(old(pages)[j], [bbox]).page
        invariant forall j :: pnum <= j < |pages| ==> pages[j] == old(pages)[j]
      {
        var ok := RedactByBboxes(pnum, [bbox]);
        pnum := pnum + 1;
      }
    }

    /** One action of the payload; false when it raises. */
    method ApplyAction(act: Action, search: Search) returns (ok: bool)
      modifies this
      ensures ok <==> Step(old(pages), act, search).Some?
      ensures ok ==> pages == Step(old(pages), act, search).value
    {
      var kind := act.kind;
      var scope := GetOr(act.scope, "currentPage");
      var page := GetOr(act.page, 1) - 1;
      var bbox := act.bbox;
      var content := GetOr(act.content, "");
      ok := true;
      if kind.Some? && kind.value in ["image", "watermark", "text"] && bbox.Some? && bbox.value != [] {
        if scope == "currentPage" {
          ok := RedactByBboxes(page, [bbox.value]);
        } else if kind == Some("text") || (kind == Some("watermark") && content != []) {
          RedactByText(content, search);
        } else {
          RedactBoxEverywhere(bbox.value);
        }
      }
    }

    /** The loop of `main` over the actions, in order. It stops at the
        first action that raises; the document is then not saved and its
        pages are not specified. */
    method ApplyActions(actions: seq<Action>, search: Search) returns (ok: bool)
      modifies this
      ensures ok <==> Run(old(pages), actions, search).Some?
      ensures ok ==> pages == Run(old(pages), actions, search).value
    {
      var i := 0;
      while i < |actions|
        invariant 0 <= i <= |actions|
        invariant Run(old(pages), actions, search) == Run(pages, actions[i..], search)
      {
        assert actions[i..][1..] == actions[i + 1..];
        var stepOk := ApplyAction(actions[i], search);
        if !stepOk {
          return false;
        }
        i := i + 1;
      }
      ok := true;
    }
  }
}
