/** The page records the document library hands to the cleaning code, as
    plain values: rectangles, text spans grouped into lines and blocks, and
    embedded images with their placements on the page. */
module PageModel {
  import opened Wrappers

  /** A rectangle (x0, y0, x1, y1) in page units. */
  datatype Rect = Rect(x0: real, y0: real, x1: real, y1: real)

  /** Width of a rectangle; a reversed rectangle has width 0. */
  function Width(r: Rect): (w: real)
    ensures w >= 0.0
  {
    if r.x1 > r.x0 then r.x1 - r.x0 else 0.0
  }

  function Height(r: Rect): (h: real)
    ensures h >= 0.0
  {
    if r.y1 > r.y0 then r.y1 - r.y0 else 0.0
  }

  function Area(r: Rect): real {
    Width(r) * Height(r)
  }

  /** `rect + (-m, -m, m, m)`: grow a rectangle by `m` on every side. */
  function Expand(r: Rect, m: real): (e: Rect)
    ensures e.x0 == r.x0 - m && e.y0 == r.y0 - m && e.x1 == r.x1 + m && e.y1 == r.y1 + m
  {
    Rect(r.x0 - m, r.y0 - m, r.x1 + m, r.y1 + m)
  }

  predicate IsEmpty(r: Rect) {
    r.x0 >= r.x1 || r.y0 >= r.y1
  }

  /** Two non-empty rectangles overlap in an area of positive size. */
  predicate Intersects(a: Rect, b: Rect) {
    !IsEmpty(a) && !IsEmpty(b) && a.x0 < b.x1 && b.x0 < a.x1 && a.y0 < b.y1 && b.y0 < a.y1
  }

  /** A text span: its text, font size (absent when the record has none),
      style flags and bounding box. */
  datatype Span = Span(text: string, size: Option<real>, flags: int, bbox: Rect)

  /** A block of the page's text dictionary: a text block holds lines of
      spans; any other block (an image block) has no "lines" entry. */
  datatype Block = TextBlock(lines: seq<seq<Span>>) | OtherBlock

  /** The decoded pixels of an embedded image. */
  datatype Pixmap = Pixmap(width: int, height: int, samples: seq<bv8>)

  /** An embedded image as seen from one page: its pixmap (None when the
      pixmap cannot be built or is empty) and its placement rectangles on
      the page (None when the library cannot locate them). */
  datatype ImageRef = ImageRef(pixmap: Option<Pixmap>, placements: Option<seq<Rect>>)

  /** A page: its dimensions, its text blocks in reading order and its
      embedded images in listing order. */
  datatype Page = Page(width: real, height: real, blocks: seq<Block>, images: seq<ImageRef>)

  function PageArea(p: Page): real {
    p.width * p.height
  }
}
