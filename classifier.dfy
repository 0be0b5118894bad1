/** The span classifier of utiles/process_pdf.py (`should_remove_text`): a
    total, deterministic, first-match rule cascade over a span's text, its
    font size and its area relative to the page. */
module Classifier {
  import opened Text
  import opened Wrappers

  /** The two URL-shaped regular expressions and the literal ones of the
      pattern table. Every literal entry is matched case-insensitively. */
  datatype Pattern =
    | UrlScheme          // https?://\S+
    | WwwHost            // www\.\S+
    | Literal(text: string)

  /** The pattern table, in its order; "subscribe" appears twice, as it does
      in the table. `\.` in a pattern is a literal dot. */
  const TextPatterns: seq<Pattern> := [
    UrlScheme, WwwHost,
    Literal("Join Our WhatsApp Channel"), Literal("For More Info Visit Cluesbook.Com"),
    Literal("cluesbook.com"), Literal("join telegram"), Literal("subscribe"),
    Literal("hamza anwar"), Literal("team"), Literal("institute"),
    Literal("Copyright Pearson Prentice-Hall"), Literal("CluesBook"), Literal("VU Help Forum"),
    Literal("telegram"), Literal("whatsapp"), Literal("channel"), Literal("subscribe"),
    Literal("follow us"), Literal("like us"), Literal("share"), Literal("click here")
  ]

  /** Watermark keywords, matched as substrings of the lower-cased text. */
  const WatermarkWords: seq<string> := [
    "cluesbook", "hamza", "anwar", "team", "institute",
    "copyright", "pearson", "prentice-hall", "vu help forum",
    "vuhelp", "virtual university", "vu students"
  ]

  /** Promotional phrases, matched as substrings of the lower-cased text. */
  const SpamPhrases: seq<string> := [
    "join our", "visit us", "click here", "download now",
    "subscribe to", "follow our", "like our", "share this"
  ]

  /** The font size above which the geometric rule applies. */
  const LargeFontSize: real := 18.0

  /** The bbox-to-page area ratio below which a large-font span is stamped noise. */
  const TinyAreaRatio: real := 0.005

  /** `prefix` (lower case) occurs at `i` of `s` ignoring case and is followed
      by at least one non-space character: the shape `prefix\S+`. */
  predicate PrefixThenNonSpaceAt(s: string, prefix: string, i: nat) {
    OccursAt(LowerStr(s), prefix, i) && i + |prefix| < |s| && !IsSpace(s[i + |prefix|])
  }

  /** `https?://\S+` matches at `i` (case-insensitively). The greedy `s?`
      can only fall back to the shorter form, so the two alternatives are
      exactly the strings the expression accepts. */
  predicate UrlAt(s: string, i: nat) {
    PrefixThenNonSpaceAt(s, "http://", i) || PrefixThenNonSpaceAt(s, "https://", i)
  }

  /** `re.search(pattern, s, re.IGNORECASE)` is truthy. */
  predicate PatternMatches(p: Pattern, s: string) {
    match p
    case UrlScheme => exists i :: 0 <= i < |s| && UrlAt(s, i)
    case WwwHost => exists i :: 0 <= i < |s| && PrefixThenNonSpaceAt(s, "www.", i)
    case Literal(t) => Contains(LowerStr(s), LowerStr(t))
  }

  /** Some pattern of `ps` matches `s` (the scan over the pattern table). */
  predicate MatchesSome(ps: seq<Pattern>, s: string) {
    ps != [] && (PatternMatches(ps[0], s) || MatchesSome(ps[1..], s))
  }

  /** Some entry of `ws` is a substring of `s` (the keyword and phrase scans). */
  predicate ContainsSome(ws: seq<string>, s: string) {
    ws != [] && (Contains(s, ws[0]) || ContainsSome(ws[1..], s))
  }

  lemma {:induction false} ContainsSomeAt(ws: seq<string>, k: nat, s: string)
    requires k < |ws| && Contains(s, ws[k])
    ensures ContainsSome(ws, s)
  {
    if k > 0 {
      ContainsSomeAt(ws[1..], k - 1, s);
    }
  }

  /** `w` has at least two characters and neither starts nor ends with
      whitespace, so stripping a text never cuts an occurrence of it. */
  predicate Bordered(w: string) {
    |w| >= 2 && !IsSpace(w[0]) && !IsSpace(w[|w| - 1])
  }

  lemma WatermarkWordBordered(k: nat)
    requires k < |WatermarkWords|
    ensures Bordered(WatermarkWords[k])
  {
  }

  lemma SpamPhraseBordered(k: nat)
    requires k < |SpamPhrases|
    ensures Bordered(SpamPhrases[k])
  {
  }

  predicate AnyPattern(s: string) { MatchesSome(TextPatterns, s) }

  predicate AnyWatermark(s: string) { ContainsSome(WatermarkWords, s) }

  predicate AnySpam(s: string) { ContainsSome(SpamPhrases, s) }

  /** A content signal: a pattern, a watermark keyword or a spam phrase. */
  predicate TextSignal(s: string) {
    AnyPattern(s) || AnyWatermark(s) || AnySpam(s)
  }

  /** `font_size and font_size > 18`: a missing or zero size is falsy. */
  predicate LargeFont(fontSize: Option<real>) {
    fontSize.Some? && fontSize.value != 0.0 && fontSize.value > LargeFontSize
  }

  /** `bbox_area / page_area if page_area > 0 else 0` */
  function AreaRatio(bboxArea: real, pageArea: real): real {
    if pageArea > 0.0 then bboxArea / pageArea else 0.0
  }

  /** The rule of the cascade that decides a span. */
  datatype Rule = Trivial | PatternRule | WatermarkRule | SpamRule | GeometryRule | NoRule {
    predicate Removes() { !Trivial? && !NoRule? }
  }

  /** `txt.lower().strip()` */
  function Normalize(txt: string): string {
    Strip(LowerStr(txt))
  }

  /** The cascade on normalised text `t`, first match wins. */
  function Decide(t: string, fontSize: Option<real>, bboxArea: real, pageArea: real): Rule {
    if t == [] || |t| < 2 then Trivial
    else if AnyPattern(t) then PatternRule
    else if AnyWatermark(t) then WatermarkRule
    else if AnySpam(t) then SpamRule
    else if LargeFont(fontSize) && AreaRatio(bboxArea, pageArea) < TinyAreaRatio then GeometryRule
    else NoRule
  }

  /** The rule that decides a span. `flags` is accepted and never consulted. */
  function Classify(txt: string, fontSize: Option<real>, flags: int, bboxArea: real, pageArea: real): Rule {
    Decide(Normalize(txt), fontSize, bboxArea, pageArea)
  }

  /** `should_remove_text(txt, font_size, flags, bbox_area, page_area)` */
  predicate ShouldRemoveText(txt: string, fontSize: Option<real>, flags: int, bboxArea: real, pageArea: real) {
    Classify(txt, fontSize, flags, bboxArea, pageArea).Removes()
  }

  /** Text whose lower-cased, stripped form is shorter than two characters is
      kept, whatever its font size and area. */
  lemma TrivialTextKept(txt: string, fontSize: Option<real>, flags: int, bboxArea: real, pageArea: real)
    requires |Normalize(txt)| < 2
    ensures !ShouldRemoveText(txt, fontSize, flags, bboxArea, pageArea)
  {
  }

  /** Without a large font the geometric rule never fires: the text is
      removed exactly when it carries a content signal. */
  lemma SmallFontNeedsSignal(txt: string, fontSize: Option<real>, flags: int, bboxArea: real, pageArea: real)
    requires !LargeFont(fontSize)
    ensures ShouldRemoveText(txt, fontSize, flags, bboxArea, pageArea)
            <==> |Normalize(txt)| >= 2 && TextSignal(Normalize(txt))
  {
  }

  /** With a large font, non-trivial text is removed when it carries a
      content signal or covers less than 0.5% of the page; a page without
      positive area makes the ratio 0, so every such text is removed. */
  lemma LargeFontGeometry(txt: string, fontSize: Option<real>, flags: int, bboxArea: real, pageArea: real)
    requires LargeFont(fontSize) && |Normalize(txt)| >= 2
    ensures pageArea <= 0.0 ==> ShouldRemoveText(txt, fontSize, flags, bboxArea, pageArea)
    ensures pageArea > 0.0 ==>
      (ShouldRemoveText(txt, fontSize, flags, bboxArea, pageArea)
       <==> TextSignal(Normalize(txt)) || bboxArea < TinyAreaRatio * pageArea)
  {
    DecideLargeFont(Normalize(txt), fontSize, bboxArea, pageArea);
  }

  lemma DecideLargeFont(t: string, fontSize: Option<real>, bboxArea: real, pageArea: real)
    requires LargeFont(fontSize) && |t| >= 2
    ensures pageArea <= 0.0 ==> Decide(t, fontSize, bboxArea, pageArea).Removes()
    ensures pageArea > 0.0 ==>
      (Decide(t, fontSize, bboxArea, pageArea).Removes()
       <==> TextSignal(t) || bboxArea < TinyAreaRatio * pageArea)
  {
    RatioBelow(bboxArea, pageArea);
  }

  lemma RatioBelow(bboxArea: real, pageArea: real)
    ensures pageArea > 0.0 ==> (AreaRatio(bboxArea, pageArea) < TinyAreaRatio <==> bboxArea < TinyAreaRatio * pageArea)
    ensures pageArea <= 0.0 ==> AreaRatio(bboxArea, pageArea) < TinyAreaRatio
  {
    if pageArea > 0.0 {
      var q := bboxArea / pageArea;
      assert bboxArea == q * pageArea;
    }
  }

  /** Any content signal on a non-trivial text decides removal. */
  lemma SignalRemoves(txt: string, fontSize: Option<real>, flags: int, bboxArea: real, pageArea: real)
    requires |Normalize(txt)| >= 2 && TextSignal(Normalize(txt))
    ensures ShouldRemoveText(txt, fontSize, flags, bboxArea, pageArea)
  {
  }

  /** Text that contains a watermark keyword, in any casing, is removed
      whatever its font size and area. */
  lemma WatermarkAlwaysRemoved(txt: string, k: nat, fontSize: Option<real>, flags: int, bboxArea: real, pageArea: real)
    requires k < |WatermarkWords| && Contains(LowerStr(txt), WatermarkWords[k])
    ensures ShouldRemoveText(txt, fontSize, flags, bboxArea, pageArea)
  {
    var w := WatermarkWords[k];
    WatermarkWordBordered(k);
    StripKeepsWord(LowerStr(txt), w);
    var t := Normalize(txt);
    ContainsSomeAt(WatermarkWords, k, t);
    assert |t| >= |w|;
    SignalRemoves(txt, fontSize, flags, bboxArea, pageArea);
  }

  /** Text that contains a spam phrase, in any casing, is removed whatever
      its font size and area. */
  lemma SpamAlwaysRemoved(txt: string, k: nat, fontSize: Option<real>, flags: int, bboxArea: real, pageArea: real)
    requires k < |SpamPhrases| && Contains(LowerStr(txt), SpamPhrases[k])
    ensures ShouldRemoveText(txt, fontSize, flags, bboxArea, pageArea)
  {
    var w := SpamPhrases[k];
    SpamPhraseBordered(k);
    StripKeepsWord(LowerStr(txt), w);
    var t := Normalize(txt);
    ContainsSomeAt(SpamPhrases, k, t);
    assert |t| >= |w|;
    SignalRemoves(txt, fontSize, flags, bboxArea, pageArea);
  }
}
