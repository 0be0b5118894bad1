/** ASCII models of the Python string primitives the cleaning and indexing
    code relies on: `str.lower`, `str.strip`, `str.isupper`, `str.split`,
    `sep.join`, `str(int)`, and the regular-expression classes `\s`, `\d`
    and `\w`. Only ASCII behaviour is modelled. */
module Text {

  /** Python's `str.isspace` / regex `\s`, restricted to ASCII. */
  predicate IsSpace(c: char) {
    c == ' ' || c == '\t' || c == '\n' || c == '\r' || c == '\U{000B}' || c == '\U{000C}'
    || ('\U{001C}' <= c <= '\U{001F}')
  }

  /** Regex `\d`, restricted to ASCII. */
  predicate IsDigit(c: char) { '0' <= c <= '9' }

  predicate IsUpperChar(c: char) { 'A' <= c <= 'Z' }

  predicate IsLowerChar(c: char) { 'a' <= c <= 'z' }

  /** Regex `\w`, restricted to ASCII: letters, digits and underscore. */
  predicate IsWordChar(c: char) { IsUpperChar(c) || IsLowerChar(c) || IsDigit(c) || c == '_' }

  function Lower(c: char): (d: char)
    ensures IsUpperChar(c) ==> IsLowerChar(d)
    ensures !IsUpperChar(c) ==> d == c
    ensures IsSpace(d) <==> IsSpace(c)
  {
    if IsUpperChar(c) then (c as int + 32) as char else c
  }

  /** `str.lower()` */
  function LowerStr(s: string): (r: string)
    ensures |r| == |s|
    ensures forall i :: 0 <= i < |s| ==> r[i] == Lower(s[i])
  {
    seq(|s|, i requires 0 <= i < |s| => Lower(s[i]))
  }

  /** `str.isupper()`: at least one cased character and no lower-case one. */
  predicate IsUpperStr(s: string) {
    (exists i :: 0 <= i < |s| && IsUpperChar(s[i])) && forall i :: 0 <= i < |s| ==> !IsLowerChar(s[i])
  }

  /** `p` occurs in `s` as a contiguous substring (Python's `p in s`). */
  predicate Contains(s: string, p: string) {
    exists i :: 0 <= i <= |s| - |p| && OccursAt(s, p, i)
  }

  /** `p` occurs in `s` starting at index `i`. */
  predicate OccursAt(s: string, p: string, i: nat) {
    i + |p| <= |s| && s[i..i + |p|] == p
  }

  /** `str.lstrip()` */
  function StripStart(s: string): (r: string)
    ensures |r| <= |s|
    ensures r != [] ==> !IsSpace(r[0])
  {
    if s != [] && IsSpace(s[0]) then StripStart(s[1..]) else s
  }

  /** `str.lstrip()` cuts off a prefix of whitespace only. */
  lemma {:induction false} StripStartDropsSpaces(s: string)
    ensures StripStart(s) == s[|s| - |StripStart(s)|..]
    ensures forall i :: 0 <= i < |s| - |StripStart(s)| ==> IsSpace(s[i])
  {
    if s != [] && IsSpace(s[0]) {
      StripStartDropsSpaces(s[1..]);
    }
  }

  /** `str.rstrip()` */
  function StripEnd(s: string): (r: string)
    ensures |r| <= |s|
    ensures r != [] ==> !IsSpace(r[|r| - 1])
  {
    if s != [] && IsSpace(s[|s| - 1]) then StripEnd(s[..|s| - 1]) else s
  }

  /** `str.rstrip()` cuts off a suffix of whitespace only. */
  lemma {:induction false} StripEndDropsSpaces(s: string)
    ensures StripEnd(s) == s[..|StripEnd(s)|]
    ensures forall i :: |StripEnd(s)| <= i < |s| ==> IsSpace(s[i])
  {
    if s != [] && IsSpace(s[|s| - 1]) {
      StripEndDropsSpaces(s[..|s| - 1]);
    }
  }

  /** `str.strip()`: the result is a slice of `s` with only whitespace cut off
      either end, and it neither starts nor ends with whitespace. */
  function Strip(s: string): (r: string)
    ensures |r| <= |s|
    ensures r != [] ==> !IsSpace(r[0]) && !IsSpace(r[|r| - 1])
  {
    var t := StripStart(s);
    StripEndDropsSpaces(t);
    StripEnd(t)
  }

  /** `str.strip()` only removes whitespace: every character it keeps was in
      `s`, and every non-space character of `s` is kept. */
  lemma StripChars(s: string)
    ensures forall c :: c in Strip(s) ==> c in s
    ensures forall c :: c in s && !IsSpace(c) ==> c in Strip(s)
  {
    var t := StripStart(s);
    StripStartDropsSpaces(s);
    var u := StripEnd(t);
    StripEndDropsSpaces(t);
    assert Strip(s) == u;
    var k := |s| - |t|;
    forall c | c in s && !IsSpace(c)
      ensures c in u
    {
      var i :| 0 <= i < |s| && s[i] == c;
      assert k <= i;
      assert t[i - k] == c;
      assert u[i - k] == c;
    }
  }

  /** Text without whitespace is left unchanged by `str.strip()`. */
  lemma StripNoSpace(s: string)
    requires forall i :: 0 <= i < |s| ==> !IsSpace(s[i])
    ensures Strip(s) == s
  {
    if s != [] {
      assert StripStart(s) == s;
    }
  }

  /** Stripping never loses an occurrence of a word that starts and ends with
      a non-space character. */
  lemma StripKeepsWord(s: string, w: string)
    requires w != [] && !IsSpace(w[0]) && !IsSpace(w[|w| - 1])
    requires Contains(s, w)
    ensures Contains(Strip(s), w)
  {
    var i :| 0 <= i <= |s| - |w| && OccursAt(s, w, i);
    var t := StripStart(s);
    StripStartDropsSpaces(s);
    var k := |s| - |t|;
    assert s[i] == w[0];
    assert k <= i;
    OccursAtShift(s, t, k, w, i);
    var u := StripEnd(t);
    StripEndDropsSpaces(t);
    assert t[i - k + |w| - 1] == w[|w| - 1];
    OccursAtPrefix(t, u, w, i - k);
  }

  lemma OccursAtShift(s: string, t: string, k: nat, w: string, i: nat)
    requires k <= i && k <= |s| && t == s[k..] && OccursAt(s, w, i)
    ensures OccursAt(t, w, i - k)
  {
    assert t[i - k..i - k + |w|] == s[i..i + |w|];
  }

  lemma OccursAtPrefix(t: string, u: string, w: string, j: nat)
    requires OccursAt(t, w, j) && |u| <= |t| && u == t[..|u|] && j + |w| <= |u|
    ensures OccursAt(u, w, j)
  {
    assert u[j..j + |w|] == t[j..j + |w|];
  }

  /** Python's `s.split(sep)` for a one-character separator: never empty, and
      no part contains the separator. */
  function Split(s: string, sep: char): (parts: seq<string>)
    ensures |parts| >= 1
    ensures forall k :: 0 <= k < |parts| ==> sep !in parts[k]
    decreases |s|
  {
    if sep !in s then [s]
    else
      var i := IndexOf(s, sep);
      [s[..i]] + Split(s[i + 1..], sep)
  }

  /** Index of the first occurrence of `c` in `s`. */
  function IndexOf(s: string, c: char): (i: nat)
    requires c in s
    ensures i < |s| && s[i] == c && c !in s[..i]
  {
    if s[0] == c then 0 else 1 + IndexOf(s[1..], c)
  }

  /** Python's `sep.join(parts)`. */
  function Join(parts: seq<string>, sep: string): string {
    if |parts| == 0 then ""
    else if |parts| == 1 then parts[0]
    else Join(parts[..|parts| - 1], sep) + sep + parts[|parts| - 1]
  }

  /** Joining the parts of a split gives the text back. */
  lemma {:induction false} JoinSplit(s: string, sep: char)
    ensures Join(Split(s, sep), [sep]) == s
    decreases |s|
  {
    if sep in s {
      var i := IndexOf(s, sep);
      var rest := Split(s[i + 1..], sep);
      JoinSplit(s[i + 1..], sep);
      JoinCons(s[..i], rest, [sep]);
      assert s == s[..i] + [sep] + s[i + 1..];
    }
  }

  lemma {:induction false} JoinCons(a: string, rest: seq<string>, sep: string)
    requires |rest| >= 1
    ensures Join([a] + rest, sep) == a + sep + Join(rest, sep)
    decreases |rest|
  {
    if |rest| > 1 {
      var last := rest[|rest| - 1];
      assert ([a] + rest)[..|rest|] == [a] + rest[..|rest| - 1];
      JoinCons(a, rest[..|rest| - 1], sep);
    } else {
      assert ([a] + rest)[..1] == [a];
    }
  }

  /** Non-empty, and neither starts nor ends with whitespace: what
      `str.strip()` leaves of a non-blank string. */
  predicate Solid(s: string) {
    s != [] && !IsSpace(s[0]) && !IsSpace(s[|s| - 1])
  }

  /** `str.strip()` leaves a solid string unchanged. */
  lemma StripSolid(s: string)
    requires Solid(s)
    ensures Strip(s) == s
  {
    assert StripStart(s) == s;
  }

  /** Joining solid parts gives a solid string, whatever the separator. */
  lemma {:induction false} JoinSolid(parts: seq<string>, sep: string)
    requires |parts| >= 1
    requires forall i :: 0 <= i < |parts| ==> Solid(parts[i])
    ensures Solid(Join(parts, sep))
  {
    if |parts| > 1 {
      var init := parts[..|parts| - 1];
      JoinSolid(init, sep);
      var j := Join(init, sep);
      assert (j + sep + parts[|parts| - 1])[0] == j[0];
    }
  }

  /** A string with exactly one whitespace character at each end before
      solid content loses exactly those two characters to `str.strip()`. */
  lemma StripOneEach(s: string)
    requires |s| >= 2 && IsSpace(s[0]) && !IsSpace(s[1])
    requires IsSpace(s[|s| - 1]) && !IsSpace(s[|s| - 2])
    ensures Strip(s) == s[1..|s| - 1]
  {
    var t := StripStart(s);
    StripStartDropsSpaces(s);
    assert |s| - |t| == 1;
    assert t == s[1..];
    var u := StripEnd(t);
    StripEndDropsSpaces(t);
    assert |u| == |t| - 1;
  }

  /** Python's `re.sub(r"\s+", " ", s)`: every run of whitespace becomes one
      space; nothing else changes. */
  function CollapseSpaces(s: string): (r: string)
    ensures forall i :: 0 <= i < |r| && IsSpace(r[i]) ==> r[i] == ' '
    ensures forall i :: 0 <= i < |r| - 1 ==> !(r[i] == ' ' && r[i + 1] == ' ')
    ensures r != [] <==> s != []
    ensures r != [] ==> (IsSpace(r[0]) <==> IsSpace(s[0]))
    ensures NonSpace(r) == NonSpace(s)
  {
    if s == [] then []
    else if IsSpace(s[0]) then
      var rest := StripStart(s);
      StripStartDropsSpaces(s);
      assert rest == s[|s| - |rest|..];
      NonSpaceSkip(s, |s| - |rest|);
      [' '] + CollapseSpaces(rest)
    else [s[0]] + CollapseSpaces(s[1..])
  }

  /** Collapsing whitespace runs keeps whitespace, or its absence, at the
      end of the text. */
  lemma {:induction false} CollapseLast(s: string)
    requires s != []
    ensures var r := CollapseSpaces(s);
            IsSpace(r[|r| - 1]) <==> IsSpace(s[|s| - 1])
  {
    if IsSpace(s[0]) {
      var rest := StripStart(s);
      StripStartDropsSpaces(s);
      if rest != [] {
        CollapseLast(rest);
        assert rest[|rest| - 1] == s[|s| - 1];
      }
    } else if |s| > 1 {
      CollapseLast(s[1..]);
    }
  }

  /** Collapsing whitespace runs keeps a solid string solid. */
  lemma CollapseSolid(s: string)
    requires Solid(s)
    ensures Solid(CollapseSpaces(s))
  {
    CollapseLast(s);
  }

  /** Text whose only whitespace is single spaces, none at the start, is
      left unchanged by collapsing whitespace runs. */
  lemma {:induction false} CollapseUnchanged(s: string)
    requires s != [] ==> !IsSpace(s[0])
    requires forall i :: 0 <= i < |s| && IsSpace(s[i]) ==> s[i] == ' '
    requires forall i :: 0 <= i < |s| - 1 ==> !(IsSpace(s[i]) && IsSpace(s[i + 1]))
    ensures CollapseSpaces(s) == s
    decreases |s|
  {
    if s != [] {
      var t := s[1..];
      if t != [] && IsSpace(t[0]) {
        assert StripStart(t) == t[1..];
        var u := t[1..];
        CollapseUnchanged(u);
        assert CollapseSpaces(t) == [' '] + u;
        assert s == [s[0]] + ([' '] + u);
      } else {
        CollapseUnchanged(t);
      }
    }
  }

  /** Collapsing whitespace runs twice is the same as collapsing once. */
  lemma CollapseIdempotent(s: string)
    ensures CollapseSpaces(CollapseSpaces(s)) == CollapseSpaces(s)
  {
    var r := CollapseSpaces(s);
    if r != [] && IsSpace(r[0]) {
      var u := r[1..];
      assert u != [] ==> !IsSpace(u[0]);
      CollapseUnchanged(u);
      assert StripStart(r) == u;
      assert r == [' '] + u;
    } else {
      CollapseUnchanged(r);
    }
  }

  /** The non-whitespace characters of `s`, in order. */
  function NonSpace(s: string): string {
    if s == [] then [] else (if IsSpace(s[0]) then [] else [s[0]]) + NonSpace(s[1..])
  }

  /** The characters of `NonSpace(s)` are exactly those of `s` that are not
      whitespace. */
  lemma {:induction false} NonSpaceChars(s: string)
    ensures forall c :: c in NonSpace(s) <==> c in s && !IsSpace(c)
    decreases |s|
  {
    if s != [] {
      NonSpaceChars(s[1..]);
      assert s == [s[0]] + s[1..];
    }
  }

  lemma {:induction false} NonSpaceSkip(s: string, k: nat)
    requires k <= |s|
    requires forall i :: 0 <= i < k ==> IsSpace(s[i])
    ensures NonSpace(s) == NonSpace(s[k..])
    decreases k
  {
    if k > 0 {
      NonSpaceSkip(s[1..], k - 1);
      assert s[1..][k - 1..] == s[k..];
    }
  }

  function DigitChar(d: nat): (c: char)
    requires d < 10
    ensures IsDigit(c)
  {
    ('0' as int + d) as char
  }

  function DigitValue(c: char): nat
    requires IsDigit(c)
  {
    c as int - '0' as int
  }

  /** Python's `str(n)` for a natural number. */
  function NatToString(n: nat): (s: string)
    ensures s != []
    ensures forall i :: 0 <= i < |s| ==> IsDigit(s[i])
  {
    if n < 10 then [DigitChar(n)] else NatToString(n / 10) + [DigitChar(n % 10)]
  }

  /** Python's `str(i)` for an integer. */
  function IntToString(i: int): string {
    if i < 0 then "-" + NatToString(-i) else NatToString(i)
  }

  /** The decimal value of a string of digits (Python's `int(s)`). */
  function ParseNat(s: string): nat
    requires forall i :: 0 <= i < |s| ==> IsDigit(s[i])
  {
    if s == [] then 0 else 10 * ParseNat(s[..|s| - 1]) + DigitValue(s[|s| - 1])
  }

  function ParseInt(s: string): int
    requires s != []
    requires forall i :: 0 <= i < |s| ==> IsDigit(s[i]) || (i == 0 && s[i] == '-')
  {
    if s[0] == '-' then 0 - ParseNat(s[1..]) else ParseNat(s)
  }

  /** Reading back a printed natural number gives the number. */
  lemma {:induction false} ParseNatToString(n: nat)
    ensures ParseNat(NatToString(n)) == n
  {
    if n >= 10 {
      var s := NatToString(n);
      assert s[..|s| - 1] == NatToString(n / 10);
      ParseNatToString(n / 10);
    }
  }

  /** Reading back a printed integer gives the integer. */
  lemma ParseIntToString(i: int)
    ensures ParseInt(IntToString(i)) == i
  {
    if i < 0 {
      var d := NatToString(-i);
      assert ("-" + d)[1..] == d;
      ParseNatToString(-i);
    } else {
      ParseNatToString(i);
    }
  }
}
