/** The deterministic text heuristics of the multiple-choice question tool:
    text cleaning (`preprocess_text`), topic detection over lines
    (`identify_topics`), concept extraction (`extract_concepts`) and the
    layout of the question file (`save_mcqs_to_file`). The question
    generation model, the random choices and file I/O around them are not
    modelled. */
module Mcq {
  import opened Text

  // ---------------------------------------------------------------------
  // preprocess_text
  // ---------------------------------------------------------------------

  /** The characters the second substitution keeps: `\w`, `\s`, `.`, `,`,
      `?` and `!`. */
  predicate Allowed(c: char) {
    IsWordChar(c) || IsSpace(c) || c == '.' || c == ',' || c == '?' || c == '!'
  }

  /** `re.sub(r'[^\w\s\.\,\?\!]', '', s)`: drops every character that is
      not allowed and keeps the others in order. */
  function KeepAllowed(s: string): (r: string)
    ensures |r| <= |s|
    decreases |s|
  {
    if s == [] then []
    else (if Allowed(s[0]) then [s[0]] else []) + KeepAllowed(s[1..])
  }

  /** The filter keeps exactly the allowed characters of its input. */
  lemma {:induction false} KeepAllowedChars(s: string)
    ensures forall c :: c in KeepAllowed(s) <==> c in s && Allowed(c)
    decreases |s|
  {
    if s != [] {
      KeepAllowedChars(s[1..]);
      assert s == [s[0]] + s[1..];
    }
  }

  /** Text made only of allowed characters passes the filter unchanged. */
  lemma {:induction false} KeepAllowedUnchanged(s: string)
    requires forall i :: 0 <= i < |s| ==> Allowed(s[i])
    ensures KeepAllowed(s) == s
    decreases |s|
  {
    if s != [] {
      KeepAllowedUnchanged(s[1..]);
      assert s == [s[0]] + s[1..];
    }
  }

  /** `preprocess_text`: whitespace runs become one space, disallowed
      characters are dropped, and the ends are stripped. The result holds
      only allowed characters, its only whitespace is the plain space, and
      it neither starts nor ends with whitespace. */
  function Preprocess(text: string): (r: string)
    ensures forall c :: c in r ==> Allowed(c)
    ensures forall c :: c in r && IsSpace(c) ==> c == ' '
    ensures r != [] ==> !IsSpace(r[0]) && !IsSpace(r[|r| - 1])
  {
    var collapsed := CollapseSpaces(text);
    var kept := KeepAllowed(collapsed);
    KeepAllowedChars(collapsed);
    StripChars(kept);
    Strip(kept)
  }

  /** No visible character is lost or invented by cleaning, other than the
      disallowed ones: a non-space character is in the cleaned text exactly
      when it is in the input and allowed. */
  lemma PreprocessKeeps(text: string, c: char)
    requires !IsSpace(c)
    ensures c in Preprocess(text) <==> c in text && Allowed(c)
  {
    var collapsed := CollapseSpaces(text);
    var kept := KeepAllowed(collapsed);
    KeepAllowedChars(collapsed);
    StripChars(kept);
    NonSpaceChars(collapsed);
    NonSpaceChars(text);
    assert c in collapsed <==> c in NonSpace(collapsed);
  }

  /** Whitespace is collapsed before the filter runs, so dropping a
      character that stood between two spaces leaves two spaces side by
      side. */
  lemma PreprocessDoubleSpace()
    ensures Preprocess("a # b") == "a  b"
  {
    CollapseExample();
    KeepExample();
    StripSolid("a  b");
  }

  lemma CollapseExample() ensures CollapseSpaces("a # b") == "a # b" {
    CollapseUnchanged("a # b");
  }

  lemma KeepExample() ensures KeepAllowed("a # b") == "a  b" {
    var s := "a # b";
    assert s[1..] == " # b" && s[2..] == "# b" && s[3..] == " b";
    assert KeepAllowed("# b") == " b";
  }

  /** The cleaned text contains no line break, since every whitespace run
      became a single space. */
  lemma PreprocessOneLine(text: string)
    ensures '\n' !in Preprocess(text)
  {
    assert IsSpace('\n');
  }

  // ---------------------------------------------------------------------
  // identify_topics
  // ---------------------------------------------------------------------

  /** Lines of this length or more are never headings. */
  const HeadingLimit := 100
  /** Non-heading lines must be longer than this to count as content. */
  const ContentMin := 20
  /** The topic that content is filed under before the first heading. */
  const DefaultTopic := "General"

  /** `s` starts with the lower-case `word`, ignoring case. */
  predicate StartsIgnoringCase(s: string, word: string) {
    |word| <= |s| && LowerStr(s[..|word|]) == word
  }

  /** The `\s*No` tail of `Q\s*No`, ignoring case: any whitespace, then
      "no". */
  predicate SpacesThenNo(s: string)
    decreases |s|
  {
    if s != [] && IsSpace(s[0]) then SpacesThenNo(s[1..])
    else |s| >= 2 && Lower(s[0]) == 'n' && Lower(s[1]) == 'o'
  }

  /** `re.match(r'^(Topic|Chapter|Section|Q\s*No)', s, re.IGNORECASE)` */
  predicate KeywordStart(s: string) {
    StartsIgnoringCase(s, "topic") || StartsIgnoringCase(s, "chapter")
    || StartsIgnoringCase(s, "section")
    || (s != [] && Lower(s[0]) == 'q' && SpacesThenNo(s[1..]))
  }

  /** `re.match(r'^\d+\.', s)`: one or more digits, then a full stop. */
  predicate NumberedStart(s: string)
    decreases |s|
  {
    |s| >= 2 && IsDigit(s[0]) && (s[1] == '.' || NumberedStart(s[1..]))
  }

  /** A stripped line that starts a new topic. */
  predicate IsHeading(line: string) {
    |line| < HeadingLimit && (IsUpperStr(line) || KeywordStart(line) || NumberedStart(line))
  }

  /** The numbered-heading rule needs the full stop right after the
      digits. */
  lemma NumberedExamples()
    ensures NumberedStart("12. Networks") && !NumberedStart("12 Networks")
  {
    assert "12. Networks"[1..] == "2. Networks";
    assert "12 Networks"[1..] == "2 Networks";
  }

  /** "Q No" is recognised in any casing and with any spacing inside. */
  lemma QuestionNumberExample()
    ensures KeywordStart("q  no 3")
  {
    var s := "q  no 3";
    assert s[1..] == "  no 3" && s[1..][1..] == " no 3" && s[1..][1..][1..] == "no 3";
  }

  /** The default topic name is never itself a heading. */
  lemma DefaultNotHeading()
    ensures !IsHeading(DefaultTopic)
  {
    assert DefaultTopic[1] == 'e';
    assert !StartsIgnoringCase(DefaultTopic, "topic") by {
      assert LowerStr(DefaultTopic[..5])[0] == 'g';
    }
    assert !StartsIgnoringCase(DefaultTopic, "chapter") by {
      assert LowerStr(DefaultTopic[..7])[0] == 'g';
    }
    assert !StartsIgnoringCase(DefaultTopic, "section") by {
      assert LowerStr(DefaultTopic[..7])[0] == 'g';
    }
  }

  /** A stripped line that is kept as content of the current topic. */
  predicate IsContent(line: string) {
    !IsHeading(line) && |line| > ContentMin
  }

  /** One entry of the `defaultdict(list)`, in key insertion order. */
  datatype Topic = Topic(name: string, lines: seq<string>)

  /** The loop state: the current topic and the topics found so far. */
  datatype TopicScan = TopicScan(current: string, topics: seq<Topic>)

  /** Position of the entry called `name`, or `|topics|` if there is none. */
  function FindTopic(topics: seq<Topic>, name: string): (k: nat)
    ensures k <= |topics|
    ensures k < |topics| ==> topics[k].name == name
    ensures forall j :: 0 <= j < k ==> topics[j].name != name
  {
    if topics == [] then 0
    else if topics[0].name == name then 0
    else 1 + FindTopic(topics[1..], name)
  }

  /** `topics[name]` on the dictionary, with a missing key reading as the
      empty list. */
  function LinesOf(topics: seq<Topic>, name: string): seq<string> {
    var k := FindTopic(topics, name);
    if k < |topics| then topics[k].lines else []
  }

  predicate DistinctNames(topics: seq<Topic>) {
    forall i, j :: 0 <= i < j < |topics| ==> topics[i].name != topics[j].name
  }

  /** `topics[name].append(line)`: a missing key is created at the end.
      Exactly the list under `name` grows by `line`; every other list is
      unchanged and the keys stay distinct. */
  function Append(topics: seq<Topic>, name: string, line: string): (r: seq<Topic>)
    requires DistinctNames(topics)
    ensures DistinctNames(r)
    ensures LinesOf(r, name) == LinesOf(topics, name) + [line]
    ensures forall n :: n != name ==> LinesOf(r, n) == LinesOf(topics, n)
    ensures |r| == |topics| || (|r| == |topics| + 1 && r[|topics|] == Topic(name, [line]))
    ensures forall i :: 0 <= i < |topics| ==> r[i].name == topics[i].name
  {
    var k := FindTopic(topics, name);
    var r := if k < |topics| then topics[k := Topic(name, topics[k].lines + [line])]
             else topics + [Topic(name, [line])];
    AppendLookups(topics, name, line, r);
    r
  }

  /** The lookups in the updated list: `name` gains `line`, every other
      name is unchanged. */
  lemma AppendLookups(topics: seq<Topic>, name: string, line: string, r: seq<Topic>)
    requires DistinctNames(topics)
    requires var k := FindTopic(topics, name);
             r == if k < |topics| then topics[k := Topic(name, topics[k].lines + [line])]
                  else topics + [Topic(name, [line])]
    ensures LinesOf(r, name) == LinesOf(topics, name) + [line]
    ensures forall n :: n != name ==> LinesOf(r, n) == LinesOf(topics, n)
  {
    var k := FindTopic(topics, name);
    forall n | n != name
      ensures LinesOf(r, n) == LinesOf(topics, n)
    {
      FindTopicSame(topics, r, n, name);
    }
    FindTopicSame(topics, r, name, name);
    if k < |topics| {
      assert FindTopic(r, name) <= k;
    }
  }

  /** Looking up `n` gives the same position in two lists whose names agree
      on the old entries, when `n` is not the name that differs. */
  lemma FindTopicSame(topics: seq<Topic>, r: seq<Topic>, n: string, name: string)
    requires |topics| <= |r| <= |topics| + 1
    requires forall i :: 0 <= i < |topics| ==> r[i].name == topics[i].name
    requires |r| > |topics| ==> r[|topics|].name == name
    requires FindTopic(topics, name) == |topics| || |r| == |topics|
    ensures n != name || |r| == |topics| ==>
              FindTopic(r, n) == FindTopic(topics, n)
              || (FindTopic(topics, n) == |topics| && FindTopic(r, n) >= |topics|)
    ensures n == name && |r| > |topics| ==> FindTopic(r, n) == |topics|
  {
    var a := FindTopic(topics, n);
    var b := FindTopic(r, n);
    if a < |topics| {
      assert r[a].name == n;
      assert b <= a;
    }
    if b < |topics| {
      assert topics[b].name == n;
    }
  }

  /** One iteration of the loop over lines. */
  function Step(s: TopicScan, raw: string): TopicScan
    requires DistinctNames(s.topics)
  {
    var line := Strip(raw);
    if IsHeading(line) then TopicScan(line, s.topics)
    else if |line| > ContentMin then TopicScan(s.current, Append(s.topics, s.current, line))
    else s
  }

  /** The loop state after the given lines. */
  function Scan(lines: seq<string>): (s: TopicScan)
    ensures DistinctNames(s.topics)
  {
    if lines == [] then TopicScan(DefaultTopic, [])
    else Step(Scan(lines[..|lines| - 1]), lines[|lines| - 1])
  }

  /** The dictionary `identify_topics` returns, as an ordered list of
      entries. */
  function Topics(text: string): seq<Topic> {
    Scan(Split(text, '\n')).topics
  }

  /** `identify_topics`: the loop over the lines of `text`. */
  method IdentifyTopics(text: string) returns (topics: seq<Topic>)
    ensures topics == Topics(text)
  {
    var lines := Split(text, '\n');
    var current := DefaultTopic;
    topics := [];
    var i := 0;
    while i < |lines|
      invariant 0 <= i <= |lines|
      invariant Scan(lines[..i]) == TopicScan(current, topics)
    {
      ScanSnoc(lines, i);
      current, topics := ReadLine(current, topics, lines[i]);
      i := i + 1;
    }
    assert lines[..|lines|] == lines;
  }

  /** The loop body: a heading becomes the current topic, a long enough
      line is filed under it, anything else is skipped. */
  method ReadLine(current: string, topics: seq<Topic>, raw: string) returns (current': string, topics': seq<Topic>)
    requires DistinctNames(topics)
    ensures TopicScan(current', topics') == Step(TopicScan(current, topics), raw)
  {
    current', topics' := current, topics;
    var line := Strip(raw);
    if IsHeading(line) {
      current' := line;
    } else if |line| > ContentMin {
      topics' := Append(topics, current, line);
    }
  }

  lemma ScanSnoc(lines: seq<string>, i: nat)
    requires i < |lines|
    ensures Scan(lines[..i + 1]) == Step(Scan(lines[..i]), lines[i])
  {
    assert lines[..i + 1][..i] == lines[..i];
  }

  /** The content lines that `lines` files under `name`, in order: each
      content line goes to the topic that is current when it is read. */
  function Filed(lines: seq<string>, name: string): seq<string> {
    if lines == [] then []
    else
      var init := lines[..|lines| - 1];
      var line := Strip(lines[|lines| - 1]);
      Filed(init, name) + (if IsContent(line) && Scan(init).current == name then [line] else [])
  }

  /** The list under each topic is exactly the content lines read while it
      was current, in reading order; lines that are headings or too short
      are in no list. */
  lemma {:induction false} TopicsFiled(lines: seq<string>, name: string)
    ensures LinesOf(Scan(lines).topics, name) == Filed(lines, name)
  {
    if lines != [] {
      TopicsFiled(lines[..|lines| - 1], name);
    }
  }

  /** Every entry of the result is non-empty (a topic appears as a key only
      once a line is filed under it), and every stored line is stripped
      content. */
  predicate WellFormed(topics: seq<Topic>) {
    DistinctNames(topics)
    && (forall i :: 0 <= i < |topics| ==> topics[i].lines != [])
    && (forall i, l :: 0 <= i < |topics| && l in topics[i].lines ==> IsContent(l) && Solid(l))
  }

  lemma {:induction false} ScanWellFormed(lines: seq<string>)
    ensures WellFormed(Scan(lines).topics)
  {
    if lines != [] {
      var init := lines[..|lines| - 1];
      ScanWellFormed(init);
      var s := Scan(init);
      var line := Strip(lines[|lines| - 1]);
      if !IsHeading(line) && |line| > ContentMin {
        AppendWellFormed(s.topics, s.current, line);
      }
    }
  }

  lemma AppendWellFormed(topics: seq<Topic>, name: string, line: string)
    requires WellFormed(topics) && IsContent(line) && Solid(line)
    ensures WellFormed(Append(topics, name, line))
  {
    var r := Append(topics, name, line);
    forall i | 0 <= i < |r|
      ensures r[i].lines != []
      ensures forall l :: l in r[i].lines ==> IsContent(l) && Solid(l)
    {
      AppendEntry(topics, name, line, i);
    }
  }

  /** After `Append`, every list is an old list, possibly with `line` at its
      end, or the new list `[line]`. */
  lemma AppendEntry(topics: seq<Topic>, name: string, line: string, i: nat)
    requires DistinctNames(topics)
    requires i < |Append(topics, name, line)|
    ensures var e := Append(topics, name, line)[i].lines;
            (i < |topics| && (e == topics[i].lines || e == topics[i].lines + [line]))
            || (i == |topics| && e == [line])
  {
  }

  /** Before any heading, the current topic is "General". */
  lemma {:induction false} CurrentDefault(lines: seq<string>)
    requires forall k :: 0 <= k < |lines| ==> !IsHeading(Strip(lines[k]))
    ensures Scan(lines).current == DefaultTopic
  {
    if lines != [] {
      CurrentDefault(lines[..|lines| - 1]);
    }
  }

  /** After a heading, the current topic is the last heading read. */
  lemma {:induction false} CurrentHeading(lines: seq<string>, k: nat)
    requires k < |lines| && IsHeading(Strip(lines[k]))
    requires forall j :: k < j < |lines| ==> !IsHeading(Strip(lines[j]))
    ensures Scan(lines).current == Strip(lines[k])
  {
    if k < |lines| - 1 {
      var init := lines[..|lines| - 1];
      CurrentHeading(init, k);
    }
  }

  /** The text cleaned by `preprocess_text` has no line breaks, so topic
      detection over it sees a single line and yields at most one topic. */
  lemma PreprocessedSingleTopic(text: string)
    ensures |Topics(Preprocess(text))| <= 1
  {
    var s := Preprocess(text);
    PreprocessOneLine(text);
    assert Split(s, '\n') == [s];
    assert [s][..0] == [];
    assert Scan([s]) == Step(TopicScan(DefaultTopic, []), s);
  }

  // ---------------------------------------------------------------------
  // extract_concepts
  // ---------------------------------------------------------------------

  /** Length of the run of word characters at the start of `s`. */
  function RunLength(s: string): (n: nat)
    requires s != [] && IsWordChar(s[0])
    ensures 1 <= n <= |s|
    ensures forall i :: 0 <= i < n ==> IsWordChar(s[i])
    ensures n < |s| ==> !IsWordChar(s[n])
  {
    if |s| == 1 || !IsWordChar(s[1]) then 1 else 1 + RunLength(s[1..])
  }

  /** The maximal runs of `\w` characters of `s`, in order. A pattern of
      word characters framed by `\b` on both sides can only match a whole
      run, so `re.findall` with such a pattern returns the runs that match
      it; `WordsAreRuns` and `WordsMember` below show that these are
      exactly the runs. */
  function Words(s: string): (ws: seq<string>)
    ensures forall k :: 0 <= k < |ws| ==> ws[k] != []
    ensures forall k, i :: 0 <= k < |ws| && 0 <= i < |ws[k]| ==> IsWordChar(ws[k][i])
    decreases |s|
  {
    if s == [] then []
    else if !IsWordChar(s[0]) then Words(s[1..])
    else
      var n := RunLength(s);
      [s[..n]] + Words(s[n..])
  }

  /** `s[i..j]` is a maximal run of `\w` characters of `s`: every character
      in it is a word character, and `\b` holds at both of its ends. */
  predicate IsRun(s: string, i: int, j: int) {
    0 <= i < j <= |s| && (forall t :: i <= t < j ==> IsWordChar(s[t]))
    && (i == 0 || !IsWordChar(s[i - 1])) && (j == |s| || !IsWordChar(s[j]))
  }

  /** A run is determined by where it starts. */
  lemma RunEndUnique(s: string, i: int, j: int, j': int)
    requires IsRun(s, i, j) && IsRun(s, i, j')
    ensures j == j'
  {
  }

  /** Runs of a suffix `s[d..]` are the runs of `s` shifted by `d`, as long
      as the run does not start at the cut, or the cut follows a non-word
      character. */
  lemma RunShift(s: string, d: nat, a: nat, b: int)
    requires d <= |s|
    requires 0 < a || (0 < d && !IsWordChar(s[d - 1]))
    ensures IsRun(s[d..], a, b) <==> IsRun(s, a + d, b + d)
    ensures IsRun(s, a + d, b + d) ==> s[d..][a..b] == s[a + d..b + d]
  {
    var t := s[d..];
    if IsRun(s, a + d, b + d) {
      assert forall u :: a <= u < b ==> t[u] == s[u + d];
      if a > 0 {
        assert t[a - 1] == s[a + d - 1];
      }
      if b < |t| {
        assert t[b] == s[b + d];
      }
      assert IsRun(t, a, b);
    }
    if IsRun(t, a, b) {
      forall u | a + d <= u < b + d
        ensures IsWordChar(s[u])
      {
        assert s[u] == t[u - d];
      }
      if a > 0 {
        assert s[a + d - 1] == t[a - 1];
      }
      if b < |t| {
        assert s[b + d] == t[b];
      }
    }
  }

  /** The `k`-th entry of `ws` is the run of `s` that starts at `starts[k]`. */
  predicate RunEntries(s: string, ws: seq<string>, starts: seq<nat>) {
    |starts| == |ws|
    && forall k :: 0 <= k < |starts| ==>
         IsRun(s, starts[k], starts[k] + |ws[k]|) && ws[k] == s[starts[k]..starts[k] + |ws[k]|]
  }

  /** The positions increase strictly. */
  predicate Increasing(starts: seq<nat>) {
    forall k, m :: 0 <= k < m < |starts| ==> starts[k] < starts[m]
  }

  /** Every run of `s` starts at one of the positions. */
  ghost predicate CoversRuns(s: string, starts: seq<nat>) {
    forall i, j :: IsRun(s, i, j) ==> i in starts
  }

  /** `ws` lists the runs of `s` in order, each exactly once: the `k`-th
      entry is the run that starts at `starts[k]`, the starts increase
      strictly, and every run of `s` starts at one of them. */
  ghost predicate ListsRuns(s: string, ws: seq<string>, starts: seq<nat>) {
    RunEntries(s, ws, starts) && Increasing(starts) && CoversRuns(s, starts)
  }

  /** Every start moved on by `d`. */
  function Shifted(st: seq<nat>, d: nat): (r: seq<nat>)
    ensures |r| == |st| && forall k :: 0 <= k < |st| ==> r[k] == st[k] + d
  {
    seq(|st|, k requires 0 <= k < |st| => st[k] + d)
  }

  /** The entries of a suffix cut after a non-word character, or cut where
      no run of the suffix starts, are entries of the whole. */
  lemma RunEntriesShift(s: string, d: nat, ws: seq<string>, st: seq<nat>)
    requires d <= |s|
    requires RunEntries(s[d..], ws, st)
    requires forall k :: 0 <= k < |st| ==> 0 < st[k] || (0 < d && !IsWordChar(s[d - 1]))
    ensures RunEntries(s, ws, Shifted(st, d))
  {
    var starts := Shifted(st, d);
    forall k | 0 <= k < |starts|
      ensures IsRun(s, starts[k], starts[k] + |ws[k]|) && ws[k] == s[starts[k]..starts[k] + |ws[k]|]
    {
      RunShift(s, d, st[k], st[k] + |ws[k]|);
    }
  }

  /** A leading non-word character starts no run and moves the others on. */
  lemma CoversRunsSkip(s: string, st: seq<nat>)
    requires s != [] && !IsWordChar(s[0])
    requires CoversRuns(s[1..], st)
    ensures CoversRuns(s, Shifted(st, 1))
  {
    var starts := Shifted(st, 1);
    forall i, j | IsRun(s, i, j)
      ensures i in starts
    {
      RunShift(s, 1, i - 1, j - 1);
      var k :| 0 <= k < |st| && st[k] == i - 1;
      assert starts[k] == i;
    }
  }

  /** After a leading run of length `n`, every other run starts past it. */
  lemma CoversRunsTake(s: string, n: nat, st: seq<nat>)
    requires s != [] && IsWordChar(s[0]) && n == RunLength(s)
    requires CoversRuns(s[n..], st)
    ensures CoversRuns(s, [0] + Shifted(st, n))
  {
    var starts := [0] + Shifted(st, n);
    forall i, j | IsRun(s, i, j)
      ensures i in starts
    {
      if i > 0 {
        assert !IsWordChar(s[i - 1]);
        assert n < i;
        RunShift(s, n, i - n, j - n);
        var k :| 0 <= k < |st| && st[k] == i - n;
        assert starts[k + 1] == i;
      }
    }
  }

  /** A leading non-word character starts no run and moves the others on. */
  lemma ListsRunsSkip(s: string, ws: seq<string>, st: seq<nat>)
    requires s != [] && !IsWordChar(s[0])
    requires ListsRuns(s[1..], ws, st)
    ensures ListsRuns(s, ws, Shifted(st, 1))
  {
    RunEntriesShift(s, 1, ws, st);
    CoversRunsSkip(s, st);
    IncreasingShift(st, 1);
  }

  /** A leading run is the first entry; the runs after it are those of the
      rest, moved on by its length. */
  lemma ListsRunsTake(s: string, n: nat, ws: seq<string>, st: seq<nat>)
    requires s != [] && IsWordChar(s[0]) && n == RunLength(s)
    requires ListsRuns(s[n..], ws, st)
    ensures ListsRuns(s, [s[..n]] + ws, [0] + Shifted(st, n))
  {
    NoRunAtCut(s, n, ws, st);
    RunEntriesShift(s, n, ws, st);
    CoversRunsTake(s, n, st);
    LeadingRun(s, n);
    RunEntriesCons(s, s[..n], ws, Shifted(st, n));
    IncreasingShift(st, n);
  }

  /** The leading run of word characters is a run. */
  lemma LeadingRun(s: string, n: nat)
    requires s != [] && IsWordChar(s[0]) && n == RunLength(s)
    ensures IsRun(s, 0, |s[..n]|) && s[..n] == s[0..|s[..n]|]
  {
  }

  /** Moving increasing positions on keeps them increasing, and a
      position 0 in front of positions moved on by at least 1 too. */
  lemma IncreasingShift(st: seq<nat>, d: nat)
    requires Increasing(st)
    ensures Increasing(Shifted(st, d))
    ensures 0 < d ==> Increasing([0] + Shifted(st, d))
  {
    var r := Shifted(st, d);
    if 0 < d {
      var starts := [0] + r;
      forall k, m | 0 <= k < m < |starts|
        ensures starts[k] < starts[m]
      {
        assert starts[m] == r[m - 1];
        if k > 0 {
          assert starts[k] == r[k - 1];
        }
      }
    }
  }

  /** No run of the rest starts right after the leading run. */
  lemma NoRunAtCut(s: string, n: nat, ws: seq<string>, st: seq<nat>)
    requires s != [] && IsWordChar(s[0]) && n == RunLength(s)
    requires RunEntries(s[n..], ws, st)
    ensures forall k :: 0 <= k < |st| ==> 0 < st[k]
  {
    forall k | 0 <= k < |st|
      ensures 0 < st[k]
    {
      assert IsRun(s[n..], st[k], st[k] + |ws[k]|);
      if n < |s| {
        assert s[n..][0] == s[n];
      }
    }
  }

  /** The run at position 0 followed by entries further on. */
  lemma RunEntriesCons(s: string, w: string, ws: seq<string>, st: seq<nat>)
    requires IsRun(s, 0, |w|) && w == s[0..|w|]
    requires RunEntries(s, ws, st)
    ensures RunEntries(s, [w] + ws, [0] + st)
  {
    var all := [w] + ws;
    var starts := [0] + st;
    forall k | 1 <= k < |starts|
      ensures IsRun(s, starts[k], starts[k] + |all[k]|) && all[k] == s[starts[k]..starts[k] + |all[k]|]
    {
      assert all[k] == ws[k - 1] && starts[k] == st[k - 1];
    }
  }

  /** `Words` lists the runs of `s` in order, each exactly once. */
  lemma {:induction false} WordsAreRuns(s: string) returns (starts: seq<nat>)
    ensures ListsRuns(s, Words(s), starts)
    decreases |s|
  {
    if s == [] {
      starts := [];
    } else if !IsWordChar(s[0]) {
      var st := WordsAreRuns(s[1..]);
      ListsRunsSkip(s, Words(s[1..]), st);
      starts := Shifted(st, 1);
    } else {
      var n := RunLength(s);
      var st := WordsAreRuns(s[n..]);
      ListsRunsTake(s, n, Words(s[n..]), st);
      starts := [0] + Shifted(st, n);
    }
  }

  /** A string is a word of `s` exactly when it is a maximal run of `\w`
      characters of `s`, which is what `re.findall` with a pattern framed
      by `\b` can match. */
  lemma WordsMember(s: string, w: string)
    ensures w in Words(s) <==> exists i, j :: IsRun(s, i, j) && s[i..j] == w
  {
    var starts := WordsAreRuns(s);
    var ws := Words(s);
    if w in ws {
      ListedIsRun(s, ws, starts, w);
    }
    if exists i, j :: IsRun(s, i, j) && s[i..j] == w {
      var i, j :| IsRun(s, i, j) && s[i..j] == w;
      RunIsListed(s, ws, starts, i, j);
    }
  }

  /** An entry is a run. */
  lemma ListedIsRun(s: string, ws: seq<string>, starts: seq<nat>, w: string)
    requires RunEntries(s, ws, starts) && w in ws
    ensures exists i, j :: IsRun(s, i, j) && s[i..j] == w
  {
    var k :| 0 <= k < |ws| && ws[k] == w;
    assert IsRun(s, starts[k], starts[k] + |w|);
  }

  /** A run is an entry. */
  lemma RunIsListed(s: string, ws: seq<string>, starts: seq<nat>, i: int, j: int)
    requires RunEntries(s, ws, starts) && CoversRuns(s, starts) && IsRun(s, i, j)
    ensures s[i..j] in ws
  {
    var k :| 0 <= k < |starts| && starts[k] == i;
    RunEndUnique(s, i, j, starts[k] + |ws[k]|);
    assert ws[k] == s[i..j];
  }

  /** `[A-Z]{2,5}` as a whole word. */
  predicate IsAcronym(w: string) {
    2 <= |w| <= 5 && forall i :: 0 <= i < |w| ==> IsUpperChar(w[i])
  }

  /** `[A-Z][a-z]+` as a whole word. */
  predicate IsCapitalised(w: string) {
    |w| >= 2 && IsUpperChar(w[0]) && forall i :: 1 <= i < |w| ==> IsLowerChar(w[i])
  }

  /** Words shorter than this are not counted as technical terms. */
  const TermMin := 3
  /** A capitalised word must occur more often than this to be a concept. */
  const TermRepeats := 2

  /** `re.findall(r'\b[A-Z]{2,5}\b', text)` */
  function Acronyms(ws: seq<string>): (r: seq<string>)
    ensures forall w :: w in r <==> w in ws && IsAcronym(w)
  {
    if ws == [] then []
    else
      assert ws == [ws[0]] + ws[1..];
      (if IsAcronym(ws[0]) then [ws[0]] else []) + Acronyms(ws[1..])
  }

  /** `re.findall(r'\b[A-Z][a-z]+\b', text)`: every capitalised word, with
      as many occurrences as in the text, and nothing else. */
  function Capitalised(ws: seq<string>): (r: seq<string>)
    ensures forall w :: multiset(r)[w] == if IsCapitalised(w) then multiset(ws)[w] else 0
  {
    if ws == [] then []
    else
      assert ws == [ws[0]] + ws[1..];
      (if IsCapitalised(ws[0]) then [ws[0]] else []) + Capitalised(ws[1..])
  }

  /** A concept of `text`: a word of 2 to 5 capitals, or a capitalised word
      longer than 3 letters that occurs more than twice. */
  predicate IsConcept(text: string, c: string) {
    var ws := Words(text);
    c in ws && (IsAcronym(c) || (IsCapitalised(c) && |c| > TermMin && multiset(ws)[c] > TermRepeats))
  }

  /** The `word_freq` loop: counts every word longer than 3 letters. */
  method CountTerms(words: seq<string>) returns (freq: map<string, nat>)
    ensures forall w :: w in freq <==> |w| > TermMin && multiset(words)[w] > 0
    ensures forall w :: w in freq ==> freq[w] == multiset(words)[w]
  {
    freq := map[];
    var i := 0;
    while i < |words|
      invariant 0 <= i <= |words|
      invariant forall w :: w in freq <==> |w| > TermMin && multiset(words[..i])[w] > 0
      invariant forall w :: w in freq ==> freq[w] == multiset(words[..i])[w]
    {
      var word := words[i];
      if |word| > TermMin {
        freq := freq[word := (if word in freq then freq[word] else 0) + 1];
      }
      assert words[..i + 1] == words[..i] + [word];
      i := i + 1;
    }
    assert words[..|words|] == words;
  }

  /** The loop over `word_freq.items()`: adds every word counted more than
      twice, whatever order the items are visited in. */
  method AddFrequent(concepts: set<string>, freq: map<string, nat>) returns (out: set<string>)
    ensures forall c :: c in out <==> c in concepts || (c in freq && freq[c] > TermRepeats)
  {
    out := concepts;
    var pending := freq.Keys;
    while pending != {}
      invariant pending <= freq.Keys
      invariant forall c :: c in out <==> c in concepts || (c in freq && c !in pending && freq[c] > TermRepeats)
      decreases |pending|
    {
      var word :| word in pending;
      if freq[word] > TermRepeats {
        out := out + {word};
      }
      pending := pending - {word};
    }
  }

  /** `extract_concepts`: the acronyms, then the frequent capitalised words
      counted in `word_freq`. The result is a set, so it holds no
      duplicates. */
  method ExtractConcepts(text: string) returns (concepts: set<string>)
    ensures forall c :: c in concepts <==> IsConcept(text, c)
  {
    var ws := Words(text);
    var acronyms := Acronyms(ws);
    var found := set w | w in acronyms;
    var words := Capitalised(ws);
    var freq := CountTerms(words);
    concepts := AddFrequent(found, freq);
    forall c
      ensures c in concepts <==> IsConcept(text, c)
    {
      if c in freq && freq[c] > TermRepeats {
        assert multiset(words)[c] > 0;
        assert IsCapitalised(c);
        assert c in ws;
      }
      if IsCapitalised(c) && |c| > TermMin && multiset(ws)[c] > TermRepeats {
        assert multiset(words)[c] > 0;
      }
    }
  }

  // ---------------------------------------------------------------------
  // save_mcqs_to_file: the layout of the question file
  // ---------------------------------------------------------------------

  /** One generated question: its text, its options and the 0-based index
      of the correct option. */
  datatype Question = Question(text: string, options: seq<string>, correct: int)

  /** The questions of one topic, in the order of the `mcqs` dictionary. */
  datatype TopicQuestions = TopicQuestions(topic: string, questions: seq<Question>)

  /** `c * n`: the character repeated `n` times. */
  function Repeat(c: char, n: nat): (s: string)
    ensures |s| == n && forall i :: 0 <= i < n ==> s[i] == c
  {
    if n == 0 then "" else [c] + Repeat(c, n - 1)
  }

  /** `'=' * 50` */
  const Rule := Repeat('=', 50)
  /** `'-' * 40` */
  const Dashes := Repeat('-', 40)
  const OptionBox := "- [ ] "
  const AnswerLead := "Correct Answer: Option "
  const TopicLead := "TOPIC: "
  const QuestionLead := "Question #"

  function WriteOptions(options: seq<string>): string {
    if options == [] then "" else OptionBox + options[0] + "\n" + WriteOptions(options[1..])
  }

  /** The writes for question number `number`, one term per `f.write`. */
  function WriteQuestion(number: nat, q: Question): string {
    (QuestionLead + NatToString(number) + "\n")
    + (q.text + "\n\n")
    + "Select the correct option:\n"
    + WriteOptions(q.options)
    + ("\n" + AnswerLead + IntToString(q.correct + 1) + "\n")
    + (Dashes + "\n\n")
  }

  /** The writes for `qs`, numbered from `number` on. */
  function WriteQuestions(qs: seq<Question>, number: nat): string {
    if qs == [] then "" else WriteQuestion(number, qs[0]) + WriteQuestions(qs[1..], number + 1)
  }

  /** The writes for one topic, one term per `f.write`, then its
      questions numbered from 1. */
  function WriteTopic(t: TopicQuestions): string {
    ("\n" + Rule + "\n")
    + (TopicLead + t.topic + "\n")
    + (Rule + "\n\n")
    + WriteQuestions(t.questions, 1)
  }

  /** Everything `save_mcqs_to_file` writes, topic after topic. */
  function Render(ts: seq<TopicQuestions>): string {
    WriteEach(ts, WriteTopic)
  }

  /** The writes of `write` for each item, one after the other. */
  function WriteEach<T>(ts: seq<T>, write: T -> string): string {
    if ts == [] then "" else write(ts[0]) + WriteEach(ts[1..], write)
  }

  // The same output seen as a list of lines.

  /** Every line followed by a line break. */
  function Terminated(lines: seq<string>): string {
    if lines == [] then "" else lines[0] + "\n" + Terminated(lines[1..])
  }

  function OptionLines(options: seq<string>): (ls: seq<string>)
    ensures |ls| == |options|
    ensures forall j :: 0 <= j < |options| ==> ls[j] == OptionBox + options[j]
  {
    if options == [] then [] else [OptionBox + options[0]] + OptionLines(options[1..])
  }

  /** The lines of one question block. */
  function QuestionLines(number: nat, q: Question): (ls: seq<string>)
    ensures |ls| == |q.options| + 8
  {
    [QuestionLead + NatToString(number), q.text, "", "Select the correct option:"]
    + OptionLines(q.options)
    + ["", AnswerLead + IntToString(q.correct + 1), Dashes, ""]
  }

  function QuestionsLines(qs: seq<Question>, number: nat): seq<string> {
    if qs == [] then [] else QuestionLines(number, qs[0]) + QuestionsLines(qs[1..], number + 1)
  }

  function TopicLines(t: TopicQuestions): seq<string> {
    ["", Rule, TopicLead + t.topic, Rule, ""] + QuestionsLines(t.questions, 1)
  }

  function FileLines(ts: seq<TopicQuestions>): seq<string> {
    if ts == [] then [] else TopicLines(ts[0]) + FileLines(ts[1..])
  }

  lemma {:induction false} TerminatedAppend(a: seq<string>, b: seq<string>)
    ensures Terminated(a + b) == Terminated(a) + Terminated(b)
    decreases |a|
  {
    if a != [] {
      TerminatedAppend(a[1..], b);
      assert (a + b)[1..] == a[1..] + b;
      assert (a + b)[0] == a[0];
      calc {
        Terminated(a + b);
        a[0] + "\n" + Terminated(a[1..] + b);
        a[0] + "\n" + (Terminated(a[1..]) + Terminated(b));
        { Regroup3(a[0] + "\n", Terminated(a[1..]), Terminated(b)); }
        a[0] + "\n" + Terminated(a[1..]) + Terminated(b);
      }
    } else {
      assert a + b == b;
    }
  }

  lemma TerminatedCons(line: string, rest: seq<string>)
    ensures Terminated([line] + rest) == line + "\n" + Terminated(rest)
  {
    assert ([line] + rest)[1..] == rest;
  }

  lemma {:induction false} OptionsAsLines(options: seq<string>)
    ensures WriteOptions(options) == Terminated(OptionLines(options))
    decreases |options|
  {
    if options != [] {
      OptionsAsLines(options[1..]);
      var ls := OptionLines(options);
      assert ls[1..] == OptionLines(options[1..]);
    }
  }

  /** The writes for one question are its lines, each ended by a line
      break. */
  lemma QuestionAsLines(number: nat, q: Question)
    ensures WriteQuestion(number, q) == Terminated(QuestionLines(number, q))
  {
    var l0 := QuestionLead + NatToString(number);
    var l7 := AnswerLead + IntToString(q.correct + 1);
    var opts := OptionLines(q.options);
    var head := [l0, q.text, "", "Select the correct option:"];
    var tail := ["", l7, Dashes, ""];
    TerminatedAppend(head + opts, tail);
    TerminatedAppend(head, opts);
    OptionsAsLines(q.options);
    var x1, x2, x3 := l0 + "\n", q.text + "\n\n", "Select the correct option:\n";
    var x5, x6 := "\n" + l7 + "\n", Dashes + "\n\n";
    HeadLines(l0, q.text);
    TailLines(l7);
    assert "\n" + AnswerLead + IntToString(q.correct + 1) + "\n" == x5;
    Regroup(x1 + x2 + x3, WriteOptions(q.options), x5, x6);
    assert QuestionLines(number, q) == head + opts + tail;
  }

  lemma Regroup(a: string, b: string, c: string, d: string)
    ensures a + b + c + d == a + b + (c + d)
  {
  }

  lemma HeadLines(l0: string, text: string)
    ensures Terminated([l0, text, "", "Select the correct option:"])
            == (l0 + "\n") + (text + "\n\n") + "Select the correct option:\n"
  {
    TerminatedCons(l0, [text, "", "Select the correct option:"]);
    TerminatedCons(text, ["", "Select the correct option:"]);
    TerminatedCons("", ["Select the correct option:"]);
    TerminatedCons("Select the correct option:", []);
  }

  lemma TailLines(l7: string)
    ensures Terminated(["", l7, Dashes, ""]) == ("\n" + l7 + "\n") + (Dashes + "\n\n")
  {
    TerminatedCons("", [l7, Dashes, ""]);
    TerminatedCons(l7, [Dashes, ""]);
    TerminatedCons(Dashes, [""]);
    TerminatedCons("", []);
  }

  lemma {:induction false} QuestionsAsLines(qs: seq<Question>, number: nat)
    ensures WriteQuestions(qs, number) == Terminated(QuestionsLines(qs, number))
    decreases |qs|
  {
    if qs != [] {
      QuestionsAsLines(qs[1..], number + 1);
      QuestionAsLines(number, qs[0]);
      TerminatedAppend(QuestionLines(number, qs[0]), QuestionsLines(qs[1..], number + 1));
    }
  }

  lemma TopicAsLines(t: TopicQuestions)
    ensures WriteTopic(t) == Terminated(TopicLines(t))
  {
    var l2 := TopicLead + t.topic;
    var head := ["", Rule, l2, Rule, ""];
    QuestionsAsLines(t.questions, 1);
    TerminatedAppend(head, QuestionsLines(t.questions, 1));
    HeaderLines(l2);
    assert TopicLead + t.topic + "\n" == l2 + "\n";
  }

  lemma HeaderLines(l2: string)
    ensures Terminated(["", Rule, l2, Rule, ""])
            == ("\n" + Rule + "\n") + (l2 + "\n") + (Rule + "\n\n")
  {
    TerminatedCons("", [Rule, l2, Rule, ""]);
    TerminatedCons(Rule, [l2, Rule, ""]);
    TerminatedCons(l2, [Rule, ""]);
    TerminatedCons(Rule, [""]);
    TerminatedCons("", []);
  }

  /** The file is its layout lines, each ended by a line break. */
  lemma {:induction false} RenderAsLines(ts: seq<TopicQuestions>)
    ensures Render(ts) == Terminated(FileLines(ts))
    decreases |ts|
  {
    if ts != [] {
      RenderAsLines(ts[1..]);
      TopicAsLines(ts[0]);
      TerminatedAppend(TopicLines(ts[0]), FileLines(ts[1..]));
    }
  }

  /** Topics are written independently, one after the other. */
  lemma RenderAppend(a: seq<TopicQuestions>, b: seq<TopicQuestions>)
    ensures Render(a + b) == Render(a) + Render(b)
  {
    WriteEachAppend(a, b, WriteTopic);
  }

  /** Writing two lists of items equals writing their concatenation. */
  lemma {:induction false} WriteEachAppend<T>(a: seq<T>, b: seq<T>, write: T -> string)
    ensures WriteEach(a + b, write) == WriteEach(a, write) + WriteEach(b, write)
    decreases |a|
  {
    if a != [] {
      WriteEachAppend(a[1..], b, write);
      assert (a + b)[1..] == a[1..] + b;
      assert (a + b)[0] == a[0];
      calc {
        WriteEach(a + b, write);
        write(a[0]) + WriteEach(a[1..] + b, write);
        write(a[0]) + (WriteEach(a[1..], write) + WriteEach(b, write));
        { Regroup3(write(a[0]), WriteEach(a[1..], write), WriteEach(b, write)); }
        write(a[0]) + WriteEach(a[1..], write) + WriteEach(b, write);
      }
    } else {
      assert a + b == b;
    }
  }

  lemma Regroup3(a: string, b: string, c: string)
    ensures a + (b + c) == a + b + c
  {
  }

  // Reading the file back line by line.

  predicate AllOneLine(lines: seq<string>) {
    forall k :: 0 <= k < |lines| ==> '\n' !in lines[k]
  }

  /** No topic name, question or option contains a line break. */
  predicate NoBreaks(ts: seq<TopicQuestions>) {
    forall i :: 0 <= i < |ts| ==>
      '\n' !in ts[i].topic
      && forall q :: q in ts[i].questions ==> '\n' !in q.text && AllOneLine(q.options)
  }

  /** Splitting terminated lines at line breaks gives the lines back, and
      an empty last part after the final break. */
  lemma {:induction false} SplitTerminated(lines: seq<string>)
    requires AllOneLine(lines)
    ensures Split(Terminated(lines), '\n') == lines + [""]
    decreases |lines|
  {
    if lines == [] {
      assert Split("", '\n') == [""];
    } else {
      SplitFirst(lines[0], Terminated(lines[1..]));
      SplitTerminated(lines[1..]);
      assert lines == [lines[0]] + lines[1..];
    }
  }

  /** Splitting a line followed by a break gives the line, then the parts
      of the rest. */
  lemma SplitFirst(l: string, rest: string)
    requires '\n' !in l
    ensures Split(l + "\n" + rest, '\n') == [l] + Split(rest, '\n')
  {
    var t := l + "\n" + rest;
    assert t[|l|] == '\n';
    assert t[..|l|] == l;
    assert IndexOf(t, '\n') == |l|;
    assert t[|l| + 1..] == rest;
  }

  lemma AllOneLineAppend(a: seq<string>, b: seq<string>)
    requires AllOneLine(a) && AllOneLine(b)
    ensures AllOneLine(a + b)
  {
    forall k | 0 <= k < |a + b|
      ensures '\n' !in (a + b)[k]
    {
      if k >= |a| {
        assert (a + b)[k] == b[k - |a|];
      }
    }
  }

  lemma IntOneLine(i: int)
    ensures '\n' !in IntToString(i)
  {
    var d := NatToString(if i < 0 then -i else i);
    assert !IsDigit('\n');
    assert '\n' !in d;
  }

  lemma QuestionOneLine(number: nat, q: Question)
    requires '\n' !in q.text && AllOneLine(q.options)
    ensures AllOneLine(QuestionLines(number, q))
  {
    var l0 := QuestionLead + NatToString(number);
    var l7 := AnswerLead + IntToString(q.correct + 1);
    NumberLineOneLine(number);
    AnswerLineOneLine(q.correct + 1);
    PromptOneLine();
    DashesOneLine();
    var head := [l0, q.text, "", "Select the correct option:"];
    var tail := ["", l7, Dashes, ""];
    assert AllOneLine(head);
    assert AllOneLine(tail);
    AllOneLineAppend(head, OptionLines(q.options));
    AllOneLineAppend(head + OptionLines(q.options), tail);
  }

  lemma NumberLineOneLine(number: nat)
    ensures '\n' !in QuestionLead + NatToString(number)
  {
    assert !IsDigit('\n');
    assert '\n' !in QuestionLead;
  }

  lemma AnswerLineOneLine(i: int)
    ensures '\n' !in AnswerLead + IntToString(i)
  {
    IntOneLine(i);
    assert '\n' !in AnswerLead;
  }

  lemma PromptOneLine()
    ensures '\n' !in "Select the correct option:"
  {
  }

  lemma DashesOneLine()
    ensures '\n' !in Dashes
  {
  }

  lemma {:induction false} QuestionsOneLine(qs: seq<Question>, number: nat)
    requires forall q :: q in qs ==> '\n' !in q.text && AllOneLine(q.options)
    ensures AllOneLine(QuestionsLines(qs, number))
    decreases |qs|
  {
    if qs != [] {
      QuestionOneLine(number, qs[0]);
      QuestionsOneLine(qs[1..], number + 1);
      AllOneLineAppend(QuestionLines(number, qs[0]), QuestionsLines(qs[1..], number + 1));
    }
  }

  lemma HeaderOneLine(topic: string)
    requires '\n' !in topic
    ensures AllOneLine(["", Rule, TopicLead + topic, Rule, ""])
  {
    assert '\n' !in TopicLead;
  }

  lemma {:induction false} FileOneLine(ts: seq<TopicQuestions>)
    requires NoBreaks(ts)
    ensures AllOneLine(FileLines(ts))
    decreases |ts|
  {
    if ts != [] {
      var t := ts[0];
      QuestionsOneLine(t.questions, 1);
      HeaderOneLine(t.topic);
      AllOneLineAppend(["", Rule, TopicLead + t.topic, Rule, ""], QuestionsLines(t.questions, 1));
      FileOneLine(ts[1..]);
      AllOneLineAppend(TopicLines(t), FileLines(ts[1..]));
    }
  }

  /** When no name, question or option holds a line break, reading the
      file back with `split('\n')` gives exactly its layout lines (and the
      empty part after the last break). */
  lemma FileRoundTrip(ts: seq<TopicQuestions>)
    requires NoBreaks(ts)
    ensures Split(Render(ts), '\n') == FileLines(ts) + [""]
  {
    RenderAsLines(ts);
    FileOneLine(ts);
    SplitTerminated(FileLines(ts));
  }

  // What the lines say.

  /** Each topic block opens with an empty line, a rule of 50 `=`, the
      topic line from which the name reads back, and a second rule. */
  lemma TopicHeader(t: TopicQuestions)
    ensures var ls := TopicLines(t);
            ls[0] == "" && ls[1] == Rule && ls[3] == Rule && ls[4] == ""
            && |Rule| == 50 && (forall i :: 0 <= i < 50 ==> Rule[i] == '=')
            && ls[2] == TopicLead + t.topic && ls[2][|TopicLead|..] == t.topic
  {
    var l2 := TopicLead + t.topic;
    assert l2[|TopicLead|..] == t.topic;
  }

  /** Where the block of question `k` starts among the lines of `qs`. */
  function Offset(qs: seq<Question>, k: nat): nat
    requires k <= |qs|
  {
    if k == 0 then 0 else |qs[0].options| + 8 + Offset(qs[1..], k - 1)
  }

  /** The lines for `qs` are the blocks of its questions, in order, the
      `k`-th one numbered `number + k`. */
  lemma QuestionBlock(qs: seq<Question>, number: nat, k: nat)
    requires k < |qs|
    ensures var ls := QuestionsLines(qs, number);
            var o := Offset(qs, k);
            o + |qs[k].options| + 8 <= |ls|
            && ls[o..o + |qs[k].options| + 8] == QuestionLines(number + k, qs[k])
  {
    var bs := Blocks(qs, number);
    BlocksConcat(qs, number);
    BlocksAt(qs, number, k);
    ConcatBlock(bs, k);
  }

  /** The question blocks of `qs`, the first numbered `number`. */
  function Blocks(qs: seq<Question>, number: nat): seq<seq<string>> {
    BlocksOf(qs, number, QuestionLines)
  }

  /** The blocks `f` lays out for `qs`, the first numbered `number`. */
  function BlocksOf(qs: seq<Question>, number: nat, f: (nat, Question) -> seq<string>): seq<seq<string>> {
    if qs == [] then [] else [f(number, qs[0])] + BlocksOf(qs[1..], number + 1, f)
  }

  /** The `k`-th block is numbered `number + k`. */
  lemma {:induction false} BlocksOfItem(qs: seq<Question>, number: nat, f: (nat, Question) -> seq<string>, k: nat)
    requires k < |qs|
    ensures k < |BlocksOf(qs, number, f)| && BlocksOf(qs, number, f)[k] == f(number + k, qs[k])
    decreases k
  {
    BlocksOfLength(qs, number, f);
    if k > 0 {
      BlocksOfItem(qs[1..], number + 1, f, k - 1);
      assert qs[1..][k - 1] == qs[k];
    }
  }

  lemma {:induction false} BlocksOfLength(qs: seq<Question>, number: nat, f: (nat, Question) -> seq<string>)
    ensures |BlocksOf(qs, number, f)| == |qs|
    decreases |qs|
  {
    if qs != [] {
      BlocksOfLength(qs[1..], number + 1, f);
    }
  }

  function Concat<T>(bs: seq<seq<T>>): seq<T> {
    if bs == [] then [] else bs[0] + Concat(bs[1..])
  }

  function Start<T>(bs: seq<seq<T>>, k: nat): nat
    requires k <= |bs|
  {
    if k == 0 then 0 else |bs[0]| + Start(bs[1..], k - 1)
  }

  lemma {:induction false} ConcatBlock<T>(bs: seq<seq<T>>, k: nat)
    requires k < |bs|
    ensures Start(bs, k) + |bs[k]| <= |Concat(bs)|
    ensures Concat(bs)[Start(bs, k)..Start(bs, k) + |bs[k]|] == bs[k]
    decreases k
  {
    if k == 0 {
      SliceFront(bs[0], Concat(bs[1..]));
    } else {
      ConcatBlock(bs[1..], k - 1);
      assert bs[1..][k - 1] == bs[k];
      SliceBack(bs[0], Concat(bs[1..]), Start(bs[1..], k - 1), |bs[k]|);
    }
  }

  lemma {:induction false} BlocksConcat(qs: seq<Question>, number: nat)
    ensures QuestionsLines(qs, number) == Concat(Blocks(qs, number))
    decreases |qs|
  {
    if qs != [] {
      BlocksConcat(qs[1..], number + 1);
      var bs := Blocks(qs, number);
      assert bs[0] == QuestionLines(number, qs[0]);
      assert bs[1..] == Blocks(qs[1..], number + 1);
    }
  }

  lemma {:induction false} BlocksAt(qs: seq<Question>, number: nat, k: nat)
    requires k < |qs|
    ensures |Blocks(qs, number)| == |qs|
    ensures Blocks(qs, number)[k] == QuestionLines(number + k, qs[k])
    ensures Start(Blocks(qs, number), k) == Offset(qs, k)
    decreases k
  {
    BlocksLength(qs, number);
    BlocksItem(qs, number, k);
    BlocksStart(qs, number, k);
  }

  lemma BlocksItem(qs: seq<Question>, number: nat, k: nat)
    requires k < |qs|
    ensures k < |Blocks(qs, number)| && Blocks(qs, number)[k] == QuestionLines(number + k, qs[k])
  {
    BlocksOfItem(qs, number, QuestionLines, k);
  }

  lemma {:induction false} BlocksStart(qs: seq<Question>, number: nat, k: nat)
    requires k <= |qs|
    ensures k <= |Blocks(qs, number)| && Start(Blocks(qs, number), k) == Offset(qs, k)
    decreases k
  {
    BlocksLength(qs, number);
    if k > 0 {
      BlocksCons(qs, number);
      BlocksStart(qs[1..], number + 1, k - 1);
    }
  }

  lemma BlocksCons(qs: seq<Question>, number: nat)
    requires qs != []
    ensures Blocks(qs, number)[0] == QuestionLines(number, qs[0])
    ensures Blocks(qs, number)[1..] == Blocks(qs[1..], number + 1)
  {
  }

  lemma {:induction false} BlocksLength(qs: seq<Question>, number: nat)
    ensures |Blocks(qs, number)| == |qs|
    decreases |qs|
  {
    if qs != [] {
      BlocksLength(qs[1..], number + 1);
    }
  }

  lemma SliceFront<T>(a: seq<T>, b: seq<T>)
    ensures (a + b)[0..|a|] == a
  {
  }

  lemma SliceBack<T>(a: seq<T>, b: seq<T>, o: nat, n: nat)
    requires o + n <= |b|
    ensures |a| + o + n <= |a + b|
    ensures (a + b)[|a| + o..|a| + o + n] == b[o..o + n]
  {
  }

  /** In a question block the number reads back as `number`, the options
      follow the prompt one per `- [ ] ` line, and the answer line reads
      back as the 1-based position `correct + 1`. */
  lemma QuestionFields(number: nat, q: Question)
    ensures var ls := QuestionLines(number, q);
            var m := |q.options|;
            ls[0] == QuestionLead + NatToString(number)
            && ParseNat(ls[0][|QuestionLead|..]) == number
            && ls[1] == q.text
            && ls[3] == "Select the correct option:"
            && (forall j :: 0 <= j < m ==> ls[4 + j] == OptionBox + q.options[j])
            && ls[m + 5] == AnswerLead + IntToString(q.correct + 1)
            && ParseInt(ls[m + 5][|AnswerLead|..]) == q.correct + 1
  {
    var l0 := QuestionLead + NatToString(number);
    var l7 := AnswerLead + IntToString(q.correct + 1);
    var head := [l0, q.text, "", "Select the correct option:"];
    var tail := ["", l7, Dashes, ""];
    PartsAt(head, OptionLines(q.options), tail);
    NumberReadsBack(number);
    AnswerReadsBack(q.correct + 1);
  }

  /** Where the three parts of a block sit in their concatenation. */
  lemma PartsAt<T>(head: seq<T>, mid: seq<T>, tail: seq<T>)
    requires |head| == 4 && |tail| == 4
    ensures var ls := head + mid + tail;
            ls[0] == head[0] && ls[1] == head[1] && ls[3] == head[3]
            && (forall j :: 0 <= j < |mid| ==> ls[4 + j] == mid[j])
            && ls[|mid| + 5] == tail[1]
  {
  }

  lemma NumberReadsBack(number: nat)
    ensures ParseNat((QuestionLead + NatToString(number))[|QuestionLead|..]) == number
  {
    assert (QuestionLead + NatToString(number))[|QuestionLead|..] == NatToString(number);
    ParseNatToString(number);
  }

  lemma AnswerReadsBack(i: int)
    ensures ParseInt((AnswerLead + IntToString(i))[|AnswerLead|..]) == i
  {
    assert (AnswerLead + IntToString(i))[|AnswerLead|..] == IntToString(i);
    ParseIntToString(i);
  }

}
