/** The text primitives the program relies on: Python's `str.strip`, `str.split`, `str.lower`,
    slicing, the `in` test, `int(str)`, `sorted` on strings, and JavaScript's `String.prototype.trim`. */
module Strings {
  import opened Wrappers

  // ---------------------------------------------------------------------------------------------
  // Whitespace and trimming
  // ---------------------------------------------------------------------------------------------

  /** Python's `str.isspace()` on one character: the characters `strip()` and `split()` remove. */
  predicate IsPySpace(c: char) {
    || ('\t' <= c <= '\r')
    || ('\U{1c}' <= c <= ' ')
    || c == '\U{85}' || c == '\U{a0}' || c == '\U{1680}'
    || ('\U{2000}' <= c <= '\U{200a}')
    || c == '\U{2028}' || c == '\U{2029}' || c == '\U{202f}' || c == '\U{205f}' || c == '\U{3000}'
  }

  /** The characters JavaScript's `trim()` removes: the WhiteSpace and LineTerminator code points
      of ECMA-262. */
  predicate IsJsSpace(c: char) {
    || ('\t' <= c <= '\r')
    || c == ' ' || c == '\U{a0}' || c == '\U{1680}'
    || ('\U{2000}' <= c <= '\U{200a}')
    || c == '\U{2028}' || c == '\U{2029}' || c == '\U{202f}' || c == '\U{205f}' || c == '\U{3000}'
    || c == '\U{feff}'
  }

  /** The whitespace Python's `int()` skips around a literal. `int()` first maps every non-ASCII
      `isspace()` character to a space but keeps ASCII unchanged, and then skips only tab, line
      feed, vertical tab, form feed, carriage return and space; so the separators U+001C..U+001F,
      which `isspace()` accepts, are not skipped. */
  predicate IsIntSpace(c: char) {
    IsPySpace(c) && !('\U{1c}' <= c <= '\U{1f}')
  }

  /** Whose notion of whitespace a trim uses: `str.strip()`, `int()`, or JavaScript's `trim()`. */
  datatype Runtime = Python | PythonInt | JavaScript

  predicate IsSpace(rt: Runtime, c: char) {
    match rt
    case Python => IsPySpace(c)
    case PythonInt => IsIntSpace(c)
    case JavaScript => IsJsSpace(c)
  }

  /** How many characters at the start of `s` are whitespace for `rt`. */
  function LeadingSpaces(s: string, rt: Runtime): (n: nat)
    ensures n <= |s|
    ensures forall i :: 0 <= i < n ==> IsSpace(rt, s[i])
    ensures n < |s| ==> !IsSpace(rt, s[n])
    decreases |s|
  {
    if s == [] || !IsSpace(rt, s[0]) then 0 else 1 + LeadingSpaces(s[1..], rt)
  }

  /** How many characters at the end of `s` are whitespace for `rt`. */
  function TrailingSpaces(s: string, rt: Runtime): (n: nat)
    ensures n <= |s|
    ensures forall i :: |s| - n <= i < |s| ==> IsSpace(rt, s[i])
    ensures n < |s| ==> !IsSpace(rt, s[|s| - 1 - n])
    decreases |s|
  {
    if s == [] || !IsSpace(rt, s[|s| - 1]) then 0 else 1 + TrailingSpaces(s[..|s| - 1], rt)
  }

  /** `r` stands in `s` at offset `k`, and everything of `s` before and after it is whitespace for `rt`. */
  predicate SurroundedAt(s: string, rt: Runtime, k: int, r: string) {
    && 0 <= k <= |s| - |r|
    && (forall i :: 0 <= i < |r| ==> r[i] == s[k + i])
    && (forall i :: 0 <= i < k ==> IsSpace(rt, s[i]))
    && (forall i :: k + |r| <= i < |s| ==> IsSpace(rt, s[i]))
  }

  /** `s` with whitespace (as `rt` defines it) removed from both ends: a slice of `s` whose outside
      is all whitespace and whose first and last characters are not. */
  function Trim(s: string, rt: Runtime): (r: string)
    ensures r == [] <==> forall i :: 0 <= i < |s| ==> IsSpace(rt, s[i])
    ensures r != [] ==> !IsSpace(rt, r[0]) && !IsSpace(rt, r[|r| - 1])
    ensures exists k :: SurroundedAt(s, rt, k, r)
  {
    var lead := LeadingSpaces(s, rt);
    if lead == |s| then
      assert SurroundedAt(s, rt, lead, []);
      []
    else
      var stop := |s| - TrailingSpaces(s, rt);
      assert lead < stop;
      assert SurroundedAt(s, rt, lead, s[lead..stop]);
      s[lead..stop]
  }

  /** Two slices of `s` with whitespace all around them and none at their ends are the same. */
  lemma SurroundedUnique(s: string, rt: Runtime, k1: int, r1: string, k2: int, r2: string)
    requires SurroundedAt(s, rt, k1, r1) && (r1 != [] ==> !IsSpace(rt, r1[0]) && !IsSpace(rt, r1[|r1| - 1]))
    requires SurroundedAt(s, rt, k2, r2) && (r2 != [] ==> !IsSpace(rt, r2[0]) && !IsSpace(rt, r2[|r2| - 1]))
    ensures r1 == r2
  {
    if r1 != [] && r2 != [] {
      assert s[k1] == r1[0] && s[k2] == r2[0];
      assert k1 == k2;
      assert s[k1 + |r1| - 1] == r1[|r1| - 1] && s[k2 + |r2| - 1] == r2[|r2| - 1];
      assert |r1| == |r2|;
    }
  }

  /** `Trim` is the only slice of `s` with whitespace all around it and none at its ends. */
  lemma TrimUnique(s: string, rt: Runtime, k: int, r: string)
    requires SurroundedAt(s, rt, k, r)
    requires r != [] ==> !IsSpace(rt, r[0]) && !IsSpace(rt, r[|r| - 1])
    ensures r == Trim(s, rt)
  {
    var t := Trim(s, rt);
    var k' :| SurroundedAt(s, rt, k', t);
    SurroundedUnique(s, rt, k, r, k', t);
  }

  /** Python's `s.strip()`: the slice of `s` left once `str.isspace()` characters are removed
      from both ends. */
  function PyStrip(s: string): string {
    Trim(s, Python)
  }

  /** JavaScript's `s.trim()`: the slice of `s` left once ECMA-262 whitespace and line
      terminators are removed from both ends. */
  function JsTrim(s: string): string {
    Trim(s, JavaScript)
  }

  /** The text `int()` reads a literal from: `s` without the whitespace `int()` skips at both ends. */
  function IntStrip(s: string): string {
    Trim(s, PythonInt)
  }

  /** A string whose first and last characters are not whitespace trims to itself. */
  lemma TrimUnchanged(s: string, rt: Runtime)
    requires s != [] ==> !IsSpace(rt, s[0]) && !IsSpace(rt, s[|s| - 1])
    ensures Trim(s, rt) == s
  {
  }

  // ---------------------------------------------------------------------------------------------
  // Case, reversal, slicing and substrings
  // ---------------------------------------------------------------------------------------------

  /** Lower-casing of one character, for the ASCII letters. */
  function LowerChar(c: char): char {
    if 'A' <= c <= 'Z' then (c as int - 'A' as int + 'a' as int) as char else c
  }

  /** Python's `s.lower()` and JavaScript's `s.toLowerCase()`, on ASCII letters: character by character. */
  function Lower(s: string): (r: string)
    ensures |r| == |s|
    ensures forall i :: 0 <= i < |s| ==> r[i] == LowerChar(s[i])
  {
    if s == [] then [] else [LowerChar(s[0])] + Lower(s[1..])
  }

  /** Python's `s[::-1]`. */
  function Reverse(s: string): (r: string)
    ensures |r| == |s|
    ensures forall i :: 0 <= i < |s| ==> r[i] == s[|s| - 1 - i]
  {
    if s == [] then [] else Reverse(s[1..]) + [s[0]]
  }

  /** Python's `s[:n]`: the first `n` characters, or all of `s` when it is shorter. */
  function Prefix(s: string, n: nat): (r: string)
    ensures |r| <= n && |r| <= |s| && forall i :: 0 <= i < |r| ==> r[i] == s[i]
    ensures |r| < n ==> r == s
  {
    if n <= |s| then s[..n] else s
  }

  predicate StartsWith(s: string, p: string) {
    |p| <= |s| && s[..|p|] == p
  }

  /** Python's `needle in hay` on strings: `needle` occurs in `hay` at some offset (the empty
      string occurs in every string). */
  predicate Contains(hay: string, needle: string)
    ensures Contains(hay, needle) <==> exists i :: 0 <= i <= |hay| - |needle| && StartsWith(hay[i..], needle)
    decreases |hay|
  {
    if StartsWith(hay, needle) then
      assert hay[0..] == hay;
      true
    else if hay == [] then false
    else
      var found := Contains(hay[1..], needle);
      assert forall i :: 1 <= i <= |hay| ==> hay[1..][i - 1..] == hay[i..];
      found
  }

  // ---------------------------------------------------------------------------------------------
  // Splitting on whitespace
  // ---------------------------------------------------------------------------------------------

  /** The length of the longest prefix of `s` that holds no whitespace. */
  function WordLength(s: string): (n: nat)
    ensures n <= |s|
    ensures forall i :: 0 <= i < n ==> !IsPySpace(s[i])
    ensures n < |s| ==> IsPySpace(s[n])
    decreases |s|
  {
    if s == [] || IsPySpace(s[0]) then 0 else 1 + WordLength(s[1..])
  }

  /** Python's `s.split()` with no separator: the maximal runs of non-whitespace, in order. */
  function Split(s: string): (r: seq<string>)
    ensures forall k :: 0 <= k < |r| ==> r[k] != [] && forall i :: 0 <= i < |r[k]| ==> !IsPySpace(r[k][i])
    decreases |s|
  {
    if s == [] then []
    else if IsPySpace(s[0]) then Split(s[1..])
    else
      var n := WordLength(s);
      [s[..n]] + Split(s[n..])
  }

  /** The non-whitespace characters of `s`, in order. */
  function NonSpace(s: string): string {
    if s == [] then [] else (if IsPySpace(s[0]) then [] else [s[0]]) + NonSpace(s[1..])
  }

  function Concat(ws: seq<string>): string {
    if ws == [] then [] else ws[0] + Concat(ws[1..])
  }

  lemma {:induction false} NonSpaceAppend(a: string, b: string)
    ensures NonSpace(a + b) == NonSpace(a) + NonSpace(b)
  {
    if a != [] {
      assert (a + b)[1..] == a[1..] + b;
      NonSpaceAppend(a[1..], b);
    } else {
      assert a + b == b;
    }
  }

  lemma {:induction false} NonSpaceOfSpaces(s: string)
    requires forall i :: 0 <= i < |s| ==> IsPySpace(s[i])
    ensures NonSpace(s) == []
  {
    if s != [] {
      NonSpaceOfSpaces(s[1..]);
    }
  }

  lemma {:induction false} NonSpaceOfWord(s: string)
    requires forall i :: 0 <= i < |s| ==> !IsPySpace(s[i])
    ensures NonSpace(s) == s
  {
    if s != [] {
      NonSpaceOfWord(s[1..]);
      assert s == [s[0]] + s[1..];
    }
  }

  /** Splitting loses exactly the whitespace: the words, joined back together, are the
      non-whitespace characters of `s` in their original order. */
  lemma {:induction false} SplitKeepsNonSpace(s: string)
    ensures Concat(Split(s)) == NonSpace(s)
    decreases |s|
  {
    if s != [] {
      if IsPySpace(s[0]) {
        SplitKeepsNonSpace(s[1..]);
      } else {
        var n := WordLength(s);
        var w, rest := s[..n], s[n..];
        assert s == w + rest;
        NonSpaceAppend(w, rest);
        NonSpaceOfWord(w);
        SplitKeepsNonSpace(rest);
        var ws := Split(s);
        assert ws == [w] + Split(rest);
        assert ws[0] == w && ws[1..] == Split(rest);
      }
    }
  }

  /** Cutting `s` anywhere after its first word leaves that first word as it is. */
  lemma {:induction false} WordLengthOfPrefix(s: string, m: nat)
    requires WordLength(s) <= m <= |s|
    ensures WordLength(s[..m]) == WordLength(s)
    decreases |s|
  {
    if s != [] && !IsPySpace(s[0]) {
      assert s[..m][1..] == s[1..][..m - 1];
      WordLengthOfPrefix(s[1..], m - 1);
    }
  }

  /** A trailing whitespace character does not change the words. */
  lemma {:induction false} SplitDropsTrailingSpace(s: string)
    requires s != [] && IsPySpace(s[|s| - 1])
    ensures Split(s) == Split(s[..|s| - 1])
    decreases |s|
  {
    var u := s[..|s| - 1];
    if |s| == 1 {
      assert Split(s) == Split(s[1..]);
    } else if IsPySpace(s[0]) {
      assert u[0] == s[0];
      assert u[1..] == s[1..][..|s| - 2];
      SplitDropsTrailingSpace(s[1..]);
    } else {
      SplitDropsTrailingSpaceAfterWord(s);
    }
  }

  /** `SplitDropsTrailingSpace` where `s` starts with a word. */
  lemma {:induction false} SplitDropsTrailingSpaceAfterWord(s: string)
    requires |s| > 1 && !IsPySpace(s[0]) && IsPySpace(s[|s| - 1])
    ensures Split(s) == Split(s[..|s| - 1])
    decreases |s|, 0
  {
    var u := s[..|s| - 1];
    var n := WordLength(s);
    WordLengthOfPrefix(s, |s| - 1);
    assert u[0] == s[0];
    assert Split(u) == [u[..n]] + Split(u[n..]);
    assert u[..n] == s[..n];
    assert u[n..] == s[n..][..|s[n..]| - 1];
    SplitDropsTrailingSpace(s[n..]);
  }

  /** Leading whitespace does not change the words. */
  lemma {:induction false} SplitDropsLeadingSpaces(s: string, k: nat)
    requires k <= |s| && forall i :: 0 <= i < k ==> IsPySpace(s[i])
    ensures Split(s) == Split(s[k..])
    decreases k
  {
    if k > 0 {
      assert s[1..][k - 1..] == s[k..];
      SplitDropsLeadingSpaces(s[1..], k - 1);
    }
  }

  /** Trailing whitespace does not change the words. */
  lemma {:induction false} SplitDropsTrailingSpaces(s: string, k: nat)
    requires k <= |s| && forall i :: |s| - k <= i < |s| ==> IsPySpace(s[i])
    ensures Split(s) == Split(s[..|s| - k])
    decreases k
  {
    if k > 0 {
      SplitDropsTrailingSpace(s);
      var u := s[..|s| - 1];
      assert u[..|u| - (k - 1)] == s[..|s| - k];
      SplitDropsTrailingSpaces(u, k - 1);
    } else {
      assert s[..|s|] == s;
    }
  }

  /** `s.strip().split()` gives the same words as `s.split()`. */
  lemma SplitIgnoresStrip(s: string)
    ensures Split(PyStrip(s)) == Split(s)
  {
    var k :| SurroundedAt(s, Python, k, PyStrip(s));
    var r := PyStrip(s);
    SplitDropsLeadingSpaces(s, k);
    var t := s[k..];
    assert t[..|r|] == r;
    SplitDropsTrailingSpaces(t, |t| - |r|);
  }

  /** A non-empty run of characters none of which is whitespace. */
  predicate IsWord(w: string) {
    w != [] && forall i :: 0 <= i < |w| ==> !IsPySpace(w[i])
  }

  /** A run of characters all of which are whitespace (possibly empty). */
  predicate AllSpace(s: string) {
    forall i :: 0 <= i < |s| ==> IsPySpace(s[i])
  }

  /** The words `ws` written out with the gaps `gaps` between them. */
  function Spaced(ws: seq<string>, gaps: seq<string>): string
    requires |ws| == |gaps| + 1
    decreases |gaps|
  {
    if gaps == [] then ws[0] else ws[0] + gaps[0] + Spaced(ws[1..], gaps[1..])
  }

  /** A word followed by whitespace, or by nothing, is read up to its end. */
  lemma {:induction false} WordLengthOfWord(w: string, t: string)
    requires forall i :: 0 <= i < |w| ==> !IsPySpace(w[i])
    requires t == [] || IsPySpace(t[0])
    ensures WordLength(w + t) == |w|
    decreases |w|
  {
    if w != [] {
      assert (w + t)[1..] == w[1..] + t;
      WordLengthOfWord(w[1..], t);
    } else {
      assert w + t == t;
    }
  }

  /** `split()` cuts exactly at the whitespace runs: words separated by non-empty whitespace,
      with any whitespace before and after, split back into those words. */
  lemma {:induction false} SplitSpaced(lead: string, ws: seq<string>, gaps: seq<string>, trail: string)
    requires |ws| == |gaps| + 1
    requires forall k :: 0 <= k < |ws| ==> IsWord(ws[k])
    requires forall k :: 0 <= k < |gaps| ==> gaps[k] != [] && AllSpace(gaps[k])
    requires AllSpace(lead) && AllSpace(trail)
    ensures Split(lead + Spaced(ws, gaps) + trail) == ws
  {
    var s := lead + Spaced(ws, gaps) + trail;
    SplitDropsLeadingSpaces(s, |lead|);
    assert s[|lead|..] == Spaced(ws, gaps) + trail;
    SplitOfSpaced(ws, gaps, trail);
  }

  /** A word followed by whitespace, or by nothing, is the first word. */
  lemma SplitAfterWord(w: string, rest: string)
    requires IsWord(w) && (rest == [] || IsPySpace(rest[0]))
    ensures Split(w + rest) == [w] + Split(rest)
  {
    var s := w + rest;
    WordLengthOfWord(w, rest);
    assert s[0] == w[0];
    assert s[..|w|] == w && s[|w|..] == rest;
  }

  /** `SplitSpaced` without whitespace in front. */
  lemma {:induction false} SplitOfSpaced(ws: seq<string>, gaps: seq<string>, trail: string)
    requires |ws| == |gaps| + 1
    requires forall k :: 0 <= k < |ws| ==> IsWord(ws[k])
    requires forall k :: 0 <= k < |gaps| ==> gaps[k] != [] && AllSpace(gaps[k])
    requires AllSpace(trail)
    ensures Split(Spaced(ws, gaps) + trail) == ws
    decreases |gaps|
  {
    var w := ws[0];
    assert ws == [w] + ws[1..];
    if gaps == [] {
      assert Spaced(ws, gaps) + trail == w + trail;
      SplitAfterWord(w, trail);
      SplitOfSpaces(trail);
    } else {
      var more := Spaced(ws[1..], gaps[1..]) + trail;
      var rest := gaps[0] + more;
      assert Spaced(ws, gaps) + trail == w + rest;
      assert rest[0] == gaps[0][0];
      SplitAfterWord(w, rest);
      SplitDropsLeadingSpaces(rest, |gaps[0]|);
      assert rest[|gaps[0]|..] == more;
      SplitOfSpaced(ws[1..], gaps[1..], trail);
    }
  }

  /** A string of whitespace only has no words. */
  lemma SplitOfSpaces(s: string)
    requires AllSpace(s)
    ensures Split(s) == []
  {
    SplitDropsLeadingSpaces(s, |s|);
    assert s[|s|..] == [];
  }

  // ---------------------------------------------------------------------------------------------
  // Python's int(str) and str(int)
  // ---------------------------------------------------------------------------------------------

  predicate IsDigit(c: char) {
    '0' <= c <= '9'
  }

  /** The digit part of an integer literal Python's `int()` accepts: ASCII digits, with a single
      underscore allowed between two digits. */
  predicate IsDigitRun(s: string)
    decreases |s|
  {
    && s != []
    && IsDigit(s[0])
    && (|s| == 1 || (if s[1] == '_' then IsDigitRun(s[2..]) else IsDigitRun(s[1..])))
  }

  /** A non-empty string of digits is a digit run. */
  lemma {:induction false} DigitsAreDigitRun(s: string)
    requires s != [] && forall i :: 0 <= i < |s| ==> IsDigit(s[i])
    ensures IsDigitRun(s)
    decreases |s|
  {
    if |s| > 1 {
      DigitsAreDigitRun(s[1..]);
    }
  }

  /** The decimal value of a digit run, underscores skipped. */
  function DigitRunValue(s: string): nat {
    if s == [] then 0
    else if IsDigit(s[|s| - 1]) then 10 * DigitRunValue(s[..|s| - 1]) + (s[|s| - 1] as int - '0' as int)
    else DigitRunValue(s[..|s| - 1])
  }

  /** An integer literal with nothing around it: an optional sign, then a digit run. */
  function IntLiteral(t: string): Option<int> {
    if t != [] && (t[0] == '+' || t[0] == '-') then
      if IsDigitRun(t[1..]) then
        var v: int := DigitRunValue(t[1..]);
        Some(if t[0] == '-' then -v else v)
      else None
    else if IsDigitRun(t) then Some(DigitRunValue(t))
    else None
  }

  /** Python's `int(s)` for a string `s`: the whitespace of `IsIntSpace` around the literal is
      skipped (see `ParseIntStrips`); `None` where it raises `ValueError`. */
  function ParseInt(s: string): Option<int>
    decreases |s|
  {
    if s != [] && IsIntSpace(s[0]) then ParseInt(s[1..])
    else if s != [] && IsIntSpace(s[|s| - 1]) then ParseInt(s[..|s| - 1])
    else IntLiteral(s)
  }

  /** `ParseInt` reads the literal that trimming `int()`'s whitespace leaves. */
  lemma {:induction false} ParseIntStrips(s: string)
    ensures ParseInt(s) == IntLiteral(IntStrip(s))
    decreases |s|
  {
    if s != [] && IsIntSpace(s[0]) {
      ParseIntStrips(s[1..]);
      TrimDropsFirst(s, PythonInt);
    } else if s != [] && IsIntSpace(s[|s| - 1]) {
      ParseIntStrips(s[..|s| - 1]);
      TrimDropsLast(s, PythonInt);
    } else {
      TrimUnchanged(s, PythonInt);
    }
  }

  /** Where `s` holds none of U+001C..U+001F, `int()` skips exactly what `strip()` removes. */
  lemma IntStripIsStrip(s: string)
    requires forall i :: 0 <= i < |s| ==> !('\U{1c}' <= s[i] <= '\U{1f}')
    ensures IntStrip(s) == PyStrip(s)
  {
    var r := IntStrip(s);
    var k :| SurroundedAt(s, PythonInt, k, r);
    if r != [] {
      assert r[0] == s[k] && r[|r| - 1] == s[k + |r| - 1];
    }
    TrimUnique(s, Python, k, r);
  }

  /** `strip()` removes a leading U+001C: `'\x1c7'.strip() == '7'`. */
  lemma StripRemovesSeparator()
    ensures PyStrip("\U{1c}7") == "7"
  {
    var s := "\U{1c}7";
    assert LeadingSpaces(s[1..], Python) == 0;
    assert LeadingSpaces(s, Python) == 1;
    assert TrailingSpaces(s, Python) == 0;
    assert s[1..] == "7";
  }

  /** `int()` and `strip()` part ways on the separators: `strip()` removes a leading U+001C, while
      `int('\x1c7')` raises `ValueError`. */
  lemma IntRejectsSeparator()
    ensures PyStrip("\U{1c}7") == "7"
    ensures ParseInt("\U{1c}7") == None
  {
    StripRemovesSeparator();
    var s := "\U{1c}7";
    assert ParseInt(s) == IntLiteral(s);
  }

  /** A space in front of a surrounded slice joins the space before it. */
  lemma SurroundedAfterSpace(s: string, rt: Runtime, k: int, r: string)
    requires s != [] && IsSpace(rt, s[0]) && SurroundedAt(s[1..], rt, k, r)
    ensures SurroundedAt(s, rt, k + 1, r)
  {
    var u := s[1..];
    forall i | 0 <= i < |r| ensures r[i] == s[k + 1 + i] {
      assert u[k + i] == s[k + 1 + i];
    }
    forall i | 0 < i < k + 1 ensures IsSpace(rt, s[i]) {
      assert u[i - 1] == s[i];
    }
    forall i | k + 1 + |r| <= i < |s| ensures IsSpace(rt, s[i]) {
      assert u[i - 1] == s[i];
    }
  }

  /** A space behind a surrounded slice joins the space after it. */
  lemma SurroundedBeforeSpace(s: string, rt: Runtime, k: int, r: string)
    requires s != [] && IsSpace(rt, s[|s| - 1]) && SurroundedAt(s[..|s| - 1], rt, k, r)
    ensures SurroundedAt(s, rt, k, r)
  {
    var u := s[..|s| - 1];
    forall i | 0 <= i < |r| ensures r[i] == s[k + i] {
      assert u[k + i] == s[k + i];
    }
    forall i | 0 <= i < k ensures IsSpace(rt, s[i]) {
      assert u[i] == s[i];
    }
    forall i | k + |r| <= i < |s| - 1 ensures IsSpace(rt, s[i]) {
      assert u[i] == s[i];
    }
  }

  /** A leading space does not change the trim. */
  lemma TrimDropsFirst(s: string, rt: Runtime)
    requires s != [] && IsSpace(rt, s[0])
    ensures Trim(s, rt) == Trim(s[1..], rt)
  {
    var r := Trim(s[1..], rt);
    assert r != [] ==> !IsSpace(rt, r[0]) && !IsSpace(rt, r[|r| - 1]);
    var k :| SurroundedAt(s[1..], rt, k, r);
    SurroundedAfterSpace(s, rt, k, r);
    TrimUnique(s, rt, k + 1, r);
  }

  /** A trailing space does not change the trim. */
  lemma TrimDropsLast(s: string, rt: Runtime)
    requires s != [] && IsSpace(rt, s[|s| - 1])
    ensures Trim(s, rt) == Trim(s[..|s| - 1], rt)
  {
    var r := Trim(s[..|s| - 1], rt);
    assert r != [] ==> !IsSpace(rt, r[0]) && !IsSpace(rt, r[|r| - 1]);
    var k :| SurroundedAt(s[..|s| - 1], rt, k, r);
    SurroundedBeforeSpace(s, rt, k, r);
    TrimUnique(s, rt, k, r);
  }

  /** What the source's `int(...)` calls raise: a `TypeError` when the form field is absent
      (`None`), a `ValueError` naming the literal when the text is not an integer; and a
      `ValueError` the source raises itself, with its message. */
  datatype Failure = NotAString | InvalidLiteral(literal: string) | Raised(message: string)

  /** A submitted form: field name to text. */
  type Form = map<string, string>

  /** Flask's `request.form.get(name)`: `None` when the field was not submitted. */
  function Field(form: Form, name: string): Option<string> {
    if name in form then Some(form[name]) else None
  }

  /** Python's `int(field)` on the value of `request.form.get(name)`. */
  function IntField(f: Option<string>): (r: Result<int, Failure>)
    ensures r.Ok? <==> f.Some? && ParseInt(f.value).Some?
    ensures r.Ok? ==> ParseInt(f.value) == Some(r.value)
    ensures f.None? ==> r == Err(NotAString)
    ensures f.Some? && ParseInt(f.value).None? ==> r == Err(InvalidLiteral(f.value))
  {
    match f
    case None => Err(NotAString)
    case Some(text) =>
      match ParseInt(text)
      case None => Err(InvalidLiteral(text))
      case Some(n) => Ok(n)
  }

  function DigitChar(d: nat): char
    requires d < 10
  {
    ('0' as int + d) as char
  }

  /** The decimal digits of `n`, without leading zeros. */
  function Digits(n: nat): (s: string)
    ensures s != [] && forall i :: 0 <= i < |s| ==> IsDigit(s[i])
  {
    if n < 10 then [DigitChar(n)] else Digits(n / 10) + [DigitChar(n % 10)]
  }

  /** Python's `str(n)` for an integer (see `DecimalForm`). */
  function Decimal(n: int): string
  {
    if n < 0 then "-" + Digits(-n) else Digits(n)
  }

  /** The digits of `n` start with `0` only when `n` is 0, and are then just "0". */
  lemma {:induction false} DigitsNoLeadingZero(n: nat)
    ensures Digits(n)[0] == '0' <==> n == 0
    ensures n == 0 ==> Digits(n) == "0"
  {
    if n >= 10 {
      DigitsNoLeadingZero(n / 10);
      assert Digits(n)[0] == Digits(n / 10)[0];
    }
  }

  /** `str(n)` starts with `-` exactly for a negative `n`, then holds only digits, with no
      leading zero unless `n` is 0. */
  lemma DecimalForm(n: int)
    ensures Decimal(n) != [] && (Decimal(n)[0] == '-' <==> n < 0)
    ensures var s, start := Decimal(n), if n < 0 then 1 else 0;
            start < |s| && (forall i :: start <= i < |s| ==> IsDigit(s[i]))
            && (s[start] == '0' ==> s == "0")
  {
    var m := if n < 0 then -n else n;
    DigitsNoLeadingZero(m);
    if n < 0 {
      assert Decimal(n)[1..] == Digits(m);
    }
  }

  lemma {:induction false} DigitsValue(n: nat)
    ensures IsDigitRun(Digits(n)) && DigitRunValue(Digits(n)) == n
  {
    var s := Digits(n);
    DigitsAreDigitRun(s);
    if n >= 10 {
      DigitsValue(n / 10);
      assert s[..|s| - 1] == Digits(n / 10);
    }
  }

  /** The literal `str()` writes is read back by `int()`. */
  lemma IntLiteralDecimal(n: int)
    ensures IntLiteral(Decimal(n)) == Some(n)
  {
    var s := Decimal(n);
    DigitsValue(if n < 0 then -n else n);
    if n < 0 {
      assert s[1..] == Digits(-n);
    }
  }

  /** `int()` reads back what `str()` writes: the two are inverse on integers. */
  lemma ParseIntDecimal(n: int)
    ensures ParseInt(Decimal(n)) == Some(n)
  {
    var s := Decimal(n);
    assert s[0] == '-' || IsDigit(s[0]);
    assert IsDigit(s[|s| - 1]);
    assert !IsIntSpace(s[0]) && !IsIntSpace(s[|s| - 1]);
    assert ParseInt(s) == IntLiteral(s);
    IntLiteralDecimal(n);
  }

  // ---------------------------------------------------------------------------------------------
  // Python's ordering of strings and `sorted` on a set of strings
  // ---------------------------------------------------------------------------------------------

  /** Python's `a < b` on strings: lexicographic by code point. */
  predicate LexLess(a: string, b: string) {
    if a == [] then b != [] else b != [] && (a[0] < b[0] || (a[0] == b[0] && LexLess(a[1..], b[1..])))
  }

  lemma {:induction false} LexLessIrreflexive(a: string)
    ensures !LexLess(a, a)
  {
    if a != [] {
      LexLessIrreflexive(a[1..]);
    }
  }

  lemma {:induction false} LexLessTransitive(a: string, b: string, c: string)
    requires LexLess(a, b) && LexLess(b, c)
    ensures LexLess(a, c)
  {
    if a != [] && a[0] == b[0] && b[0] == c[0] {
      LexLessTransitive(a[1..], b[1..], c[1..]);
    }
  }

  lemma {:induction false} LexLessTotal(a: string, b: string)
    requires a != b
    ensures LexLess(a, b) || LexLess(b, a)
  {
    if a != [] && b != [] && a[0] == b[0] {
      assert a == [a[0]] + a[1..] && b == [b[0]] + b[1..];
      LexLessTotal(a[1..], b[1..]);
    }
  }

  /** Strictly ascending: sorted and without duplicates. */
  predicate StrictlySorted(s: seq<string>) {
    forall i, j :: 0 <= i < j < |s| ==> LexLess(s[i], s[j])
  }

  /** `x` put into its place in the strictly ascending `s`, unless it is already there. */
  function InsertSorted(s: seq<string>, x: string): (r: seq<string>)
    requires StrictlySorted(s)
    ensures StrictlySorted(r)
    ensures forall y :: y in r <==> y in s || y == x
  {
    if s == [] then [x]
    else if x == s[0] then s
    else if LexLess(x, s[0]) then
      assert forall j :: 0 <= j < |s| ==> LexLess(x, s[j]) by {
        forall j | 0 < j < |s| { LexLessTransitive(x, s[0], s[j]); }
      }
      [x] + s
    else
      LexLessTotal(x, s[0]);
      var t := InsertSorted(s[1..], x);
      assert forall j :: 0 <= j < |t| ==> LexLess(s[0], t[j]) by {
        forall j | 0 <= j < |t| ensures LexLess(s[0], t[j]) {
          if t[j] != x {
            assert t[j] in t;
            assert t[j] in s[1..];
            var k :| 0 <= k < |s[1..]| && s[1..][k] == t[j];
            assert s[k + 1] == t[j];
          }
        }
      }
      [s[0]] + t
  }

  /** Python's `sorted(S)` for a set of strings. */
  method SortedList(S: set<string>) returns (s: seq<string>)
    ensures StrictlySorted(s)
    ensures forall x :: x in s <==> x in S
  {
    s := [];
    var rest := S;
    while rest != {}
      invariant StrictlySorted(s)
      invariant rest <= S
      invariant forall x :: x in s <==> x in S - rest
      decreases rest
    {
      var x :| x in rest;
      s := InsertSorted(s, x);
      rest := rest - {x};
    }
  }

  /** A strictly sorted sequence has no duplicates. */
  lemma StrictlySortedDistinct(s: seq<string>, i: int, j: int)
    requires StrictlySorted(s) && 0 <= i < |s| && 0 <= j < |s| && i != j
    ensures s[i] != s[j]
  {
    if i < j {
      if s[i] == s[j] { LexLessIrreflexive(s[i]); }
    } else {
      if s[i] == s[j] { LexLessIrreflexive(s[j]); }
    }
  }
}
