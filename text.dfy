/**
 * The pieces of Python's `str` behaviour that the core relies on: `strip`, `split`, `join`,
 * `splitlines`, `replace`, `lower`, `str(int)`, and the way a text-mode file is read
 * (universal newlines, then one line per `\n`, each line keeping its terminator).
 */
module Text {

  // ---------------------------------------------------------------------------
  // Character classes
  // ---------------------------------------------------------------------------

  /** Python's `str.isspace()`: the characters `str.strip()` removes. */
  predicate IsSpace(c: char) {
    c == ' ' || ('\t' <= c <= '\r') || ('\U{1c}' <= c <= '\U{1f}') || c == '\U{85}' || c == '\U{a0}'
    || c == '\U{1680}' || ('\U{2000}' <= c <= '\U{200a}') || c == '\U{2028}' || c == '\U{2029}'
    || c == '\U{202f}' || c == '\U{205f}' || c == '\U{3000}'
  }

  /** The characters `str.splitlines()` breaks at (`\r\n` counts as one break). */
  predicate IsLineBreak(c: char) {
    c == '\n' || c == '\r' || c == '\U{b}' || c == '\U{c}' || ('\U{1c}' <= c <= '\U{1e}')
    || c == '\U{85}' || c == '\U{2028}' || c == '\U{2029}'
  }

  /** The argument of `strip("- ")`. */
  predicate IsDashOrSpace(c: char) {
    c == '-' || c == ' '
  }

  predicate IsAsciiDigit(c: char) {
    '0' <= c <= '9'
  }

  predicate IsAsciiUpper(c: char) {
    'A' <= c <= 'Z'
  }

  predicate IsAsciiLower(c: char) {
    'a' <= c <= 'z'
  }

  predicate IsAsciiLetter(c: char) {
    IsAsciiUpper(c) || IsAsciiLower(c)
  }

  function LowerChar(c: char): char {
    if IsAsciiUpper(c) then (c as int + 32) as char else c
  }

  /** ASCII lower-casing of a whole string. */
  function Lower(s: string): string {
    seq(|s|, i requires 0 <= i < |s| => LowerChar(s[i]))
  }

  predicate NoLineBreak(s: string) {
    forall i :: 0 <= i < |s| ==> !IsLineBreak(s[i])
  }

  predicate StartsWith(s: string, prefix: string) {
    |prefix| <= |s| && s[..|prefix|] == prefix
  }

  predicate EndsWith(s: string, suffix: string) {
    |suffix| <= |s| && s[|s| - |suffix|..] == suffix
  }

  // ---------------------------------------------------------------------------
  // Searching and stripping
  // ---------------------------------------------------------------------------

  /** `s` without its longest prefix of characters satisfying `p`. */
  function DropWhile(s: string, p: char -> bool): (r: string)
    ensures |r| <= |s|
    ensures r == [] || !p(r[0])
    decreases |s|
  {
    if s != [] && p(s[0]) then DropWhile(s[1..], p) else s
  }

  /** `DropWhile` leaves a suffix, and everything it removed satisfies `p`. */
  lemma {:induction false} DropWhileDropped(s: string, p: char -> bool)
    ensures DropWhile(s, p) == s[|s| - |DropWhile(s, p)|..]
    ensures forall i :: 0 <= i < |s| - |DropWhile(s, p)| ==> p(s[i])
    decreases |s|
  {
    if s != [] && p(s[0]) {
      DropWhileDropped(s[1..], p);
      assert forall i :: 1 <= i < |s| ==> s[i] == s[1..][i - 1];
    }
  }

  /** A prefix made of characters satisfying `p`, followed by one that does not, is dropped. */
  lemma {:induction false} DropWhilePrefix(pre: string, u: string, p: char -> bool)
    requires forall i :: 0 <= i < |pre| ==> p(pre[i])
    requires u == [] || !p(u[0])
    ensures DropWhile(pre + u, p) == u
    decreases |pre|
  {
    if pre == [] {
      assert pre + u == u;
    } else {
      assert (pre + u)[0] == pre[0] && (pre + u)[1..] == pre[1..] + u;
      DropWhilePrefix(pre[1..], u, p);
    }
  }

  /** `s` without its longest suffix of characters satisfying `p`. */
  function DropWhileEnd(s: string, p: char -> bool): (r: string)
    ensures |r| <= |s|
    ensures r == [] || !p(r[|r| - 1])
    decreases |s|
  {
    if s != [] && p(s[|s| - 1]) then DropWhileEnd(s[..|s| - 1], p) else s
  }

  /** `DropWhileEnd` leaves a prefix, and everything it removed satisfies `p`. */
  lemma {:induction false} DropWhileEndDropped(s: string, p: char -> bool)
    ensures DropWhileEnd(s, p) == s[..|DropWhileEnd(s, p)|]
    ensures forall i :: |DropWhileEnd(s, p)| <= i < |s| ==> p(s[i])
    decreases |s|
  {
    if s != [] && p(s[|s| - 1]) {
      DropWhileEndDropped(s[..|s| - 1], p);
    }
  }

  /** Python's `str.strip(chars)` for the character class `p`. */
  function StripBy(s: string, p: char -> bool): (r: string)
    ensures r == [] || (!p(r[0]) && !p(r[|r| - 1]))
  {
    var d := DropWhile(s, p);
    DropWhileEndDropped(d, p);
    DropWhileEnd(d, p)
  }

  /** What `StripBy` keeps is the piece of `s` that starts at the returned position. */
  lemma StripBySlice(s: string, p: char -> bool) returns (a: nat)
    ensures a + |StripBy(s, p)| <= |s|
    ensures StripBy(s, p) == s[a..a + |StripBy(s, p)|]
  {
    var d := DropWhile(s, p);
    DropWhileDropped(s, p);
    DropWhileEndDropped(d, p);
    a := |s| - |d|;
    var r := DropWhileEnd(d, p);
    assert r == d[..|r|] == s[a..][..|r|];
    assert s[a..][..|r|] == s[a..a + |r|];
  }

  /** Python's `str.strip()`. */
  function Strip(s: string): string {
    StripBy(s, IsSpace)
  }

  /** Python's `str.strip("- ")`. */
  function StripDashes(s: string): string {
    StripBy(s, IsDashOrSpace)
  }

  /** A string with no leading or trailing whitespace is its own `strip()`. */
  lemma StripOfStripped(s: string)
    requires s == [] || (!IsSpace(s[0]) && !IsSpace(s[|s| - 1]))
    ensures Strip(s) == s
  {
  }

  /** `strip()` leaves the empty string exactly when the input is all whitespace. */
  lemma StripEmptyIff(s: string)
    ensures Strip(s) == [] <==> forall i :: 0 <= i < |s| ==> IsSpace(s[i])
  {
    var d := DropWhile(s, IsSpace);
    DropWhileDropped(s, IsSpace);
    DropWhileEndDropped(d, IsSpace);
    assert forall i :: |s| - |d| <= i < |s| ==> s[i] == d[i - (|s| - |d|)];
    assert d != [] ==> d[0] == s[|s| - |d|];
  }

  // ---------------------------------------------------------------------------
  // Concatenation, splitting and joining
  // ---------------------------------------------------------------------------

  lemma Assoc<T>(a: seq<T>, b: seq<T>, c: seq<T>)
    ensures a + b + c == a + (b + c)
  {
  }

  /** The last element of `a + b` and what precedes it, for a non-empty `b`. */
  lemma Snoc<T>(a: seq<T>, b: seq<T>)
    requires b != []
    ensures (a + b)[..|a + b| - 1] == a + b[..|b| - 1]
    ensures (a + b)[|a + b| - 1] == b[|b| - 1]
  {
  }

  function Concat(ss: seq<string>): string
    decreases |ss|
  {
    if ss == [] then [] else ss[0] + Concat(ss[1..])
  }

  lemma {:induction false} ConcatAppend(a: seq<string>, b: seq<string>)
    ensures Concat(a + b) == Concat(a) + Concat(b)
    decreases |a|
  {
    if a == [] {
      assert a + b == b;
    } else {
      assert (a + b)[1..] == a[1..] + b;
      ConcatAppend(a[1..], b);
    }
  }

  /** Python's `sep.join(parts)`. */
  function Join(sep: string, parts: seq<string>): string
    decreases |parts|
  {
    if parts == [] then []
    else if |parts| == 1 then parts[0]
    else parts[0] + sep + Join(sep, parts[1..])
  }

  /** Python's `s.split(sep)` for a one-character separator: never empty, and no piece contains `sep`. */
  function Split(s: string, sep: char): (r: seq<string>)
    ensures |r| >= 1
    decreases |s|
  {
    if s == [] then [[]]
    else
      var rest := Split(s[1..], sep);
      if s[0] == sep then [[]] + rest else [[s[0]] + rest[0]] + rest[1..]
  }

  /** No piece holds the separator. */
  lemma {:induction false} SplitPieces(s: string, sep: char)
    ensures forall i :: 0 <= i < |Split(s, sep)| ==> sep !in Split(s, sep)[i]
    decreases |s|
  {
    if s != [] {
      SplitPieces(s[1..], sep);
      var rest := Split(s[1..], sep);
      if s[0] != sep {
        assert sep !in [s[0]] + rest[0];
      }
    }
  }

  /** Extending the first piece of a join extends the joined string by the same prefix. */
  lemma JoinHead(sep: string, p: string, parts: seq<string>)
    requires parts != []
    ensures Join(sep, [p + parts[0]] + parts[1..]) == p + Join(sep, parts)
  {
    var q := [p + parts[0]] + parts[1..];
    assert q[1..] == parts[1..];
  }

  /** Joining the pieces of a split with the same separator gives back the string. */
  lemma {:induction false} JoinSplit(s: string, sep: char)
    ensures Join([sep], Split(s, sep)) == s
    decreases |s|
  {
    if s != [] {
      var rest := Split(s[1..], sep);
      JoinSplit(s[1..], sep);
      if s[0] == sep {
        assert ([[]] + rest)[1..] == rest;
      } else {
        JoinHead([sep], [s[0]], rest);
      }
      assert s == [s[0]] + s[1..];
    }
  }

  /** A separator-free prefix becomes the start of the first piece. */
  lemma {:induction false} SplitPrefix(p: string, t: string, sep: char)
    requires sep !in p
    ensures Split(p + t, sep) == [p + Split(t, sep)[0]] + Split(t, sep)[1..]
    decreases |p|
  {
    if p == [] {
      assert p + t == t;
      var r := Split(t, sep);
      assert p + r[0] == r[0];
      assert r == [r[0]] + r[1..];
    } else {
      assert (p + t)[1..] == p[1..] + t;
      assert (p + t)[0] == p[0];
      assert p[0] in p;
      assert forall k :: 0 <= k < |p| - 1 ==> p[1..][k] == p[k + 1];
      SplitPrefix(p[1..], t, sep);
      var rest := Split(p[1..] + t, sep);
      assert Split(p + t, sep) == [[p[0]] + rest[0]] + rest[1..];
      assert rest[0] == p[1..] + Split(t, sep)[0];
      assert rest[1..] == Split(t, sep)[1..];
      assert [p[0]] + (p[1..] + Split(t, sep)[0]) == ([p[0]] + p[1..]) + Split(t, sep)[0];
      assert p == [p[0]] + p[1..];
    }
  }

  /** A separator splits the text around it into the pieces of either side. */
  lemma {:induction false} SplitAround(a: string, b: string, sep: char)
    ensures Split(a + [sep] + b, sep) == Split(a, sep) + Split(b, sep)
    decreases |a|
  {
    if a == [] {
      SplitHead(sep, b, sep);
      assert a + [sep] + b == [sep] + b;
    } else {
      var t := a[1..];
      var r, q := Split(t, sep), Split(b, sep);
      assert a + [sep] + b == [a[0]] + (t + [sep] + b) by {
        assert a == [a[0]] + t;
        Assoc([a[0]], t, [sep]);
        Assoc([a[0]], t + [sep], b);
      }
      SplitAround(t, b, sep);
      SplitHead(a[0], t + [sep] + b, sep);
      SplitHead(a[0], t, sep);
      assert a == [a[0]] + t;
      if a[0] == sep {
        Assoc([[]], r, q);
      } else {
        JoinFirst([a[0]], r, q);
      }
    }
  }

  /** Extending the first piece commutes with appending more pieces. */
  lemma JoinFirst(h: string, r: seq<string>, q: seq<string>)
    requires r != []
    ensures [h + (r + q)[0]] + (r + q)[1..] == [h + r[0]] + r[1..] + q
  {
    assert (r + q)[0] == r[0];
    assert (r + q)[1..] == r[1..] + q;
    Assoc([h + r[0]], r[1..], q);
  }

  /** Splitting text with a known first character. */
  lemma SplitHead(c: char, t: string, sep: char)
    ensures Split([c] + t, sep)
         == if c == sep then [[]] + Split(t, sep) else [[c] + Split(t, sep)[0]] + Split(t, sep)[1..]
  {
    assert ([c] + t)[0] == c && ([c] + t)[1..] == t;
  }

  /** Text without the separator is a single piece. */
  lemma SplitNone(s: string, sep: char)
    requires sep !in s
    ensures Split(s, sep) == [s]
  {
    SplitJoin([s], sep);
  }

  /** Splitting a join recovers the pieces, provided none of them contains the separator. */
  lemma {:induction false} SplitJoin(parts: seq<string>, sep: char)
    requires |parts| >= 1
    requires forall i :: 0 <= i < |parts| ==> sep !in parts[i]
    ensures Split(Join([sep], parts), sep) == parts
    decreases |parts|
  {
    if |parts| == 1 {
      SplitPrefix(parts[0], [], sep);
      assert parts[0] + [] == parts[0];
    } else {
      var j := Join([sep], parts[1..]);
      SplitJoin(parts[1..], sep);
      assert ([sep] + j)[1..] == j;
      assert ([sep] + j)[0] == sep;
      assert Split([sep] + j, sep) == [[]] + Split(j, sep);
      assert Join([sep], parts) == parts[0] + ([sep] + j);
      SplitPrefix(parts[0], [sep] + j, sep);
      var r := Split([sep] + j, sep);
      assert r[0] == [] && r[1..] == parts[1..];
      assert parts[0] + [] == parts[0];
      assert parts == [parts[0]] + parts[1..];
    }
  }

  // ---------------------------------------------------------------------------
  // Reading a text file
  // ---------------------------------------------------------------------------

  /**
   * Universal-newline translation applied when Python reads a file in text mode:
   * `\r\n` and a lone `\r` both become `\n`.
   */
  function Translate(s: string): (r: string)
    ensures '\r' !in r
    decreases |s|
  {
    if s == [] then []
    else if s[0] == '\r' then "\n" + Translate(if |s| > 1 && s[1] == '\n' then s[2..] else s[1..])
    else [s[0]] + Translate(s[1..])
  }

  /** Text without carriage returns reads back unchanged. */
  lemma {:induction false} TranslateNoReturn(s: string)
    requires '\r' !in s
    ensures Translate(s) == s
    decreases |s|
  {
    if s != [] {
      assert s[0] in s;
      assert forall c :: c in s[1..] ==> c in s;
      TranslateNoReturn(s[1..]);
    }
  }

  /** Translation works piecewise, unless the first piece ends in `\r` (which could pair with a `\n`). */
  lemma {:induction false} TranslateAppend(a: string, b: string)
    requires a == [] || a[|a| - 1] != '\r'
    ensures Translate(a + b) == Translate(a) + Translate(b)
    decreases |a|
  {
    if a == [] {
      assert a + b == b;
    } else if a[0] == '\r' {
      if |a| > 1 && a[1] == '\n' {
        assert (a + b)[2..] == a[2..] + b;
        TranslateAppend(a[2..], b);
      } else {
        assert |a| > 1;
        assert (a + b)[1..] == a[1..] + b;
        TranslateAppend(a[1..], b);
      }
    } else {
      assert (a + b)[1..] == a[1..] + b;
      TranslateAppend(a[1..], b);
    }
  }

  /** Text that ends with a line terminator still does once read. */
  lemma {:induction false} TranslateFinalNewline(s: string)
    requires s != [] && s[|s| - 1] == '\n'
    ensures Translate(s) != [] && Translate(s)[|Translate(s)| - 1] == '\n'
    decreases |s|
  {
    if s[0] == '\r' {
      var rest := if |s| > 1 && s[1] == '\n' then s[2..] else s[1..];
      if rest != [] {
        assert rest[|rest| - 1] == '\n';
        TranslateFinalNewline(rest);
      }
    } else if |s| > 1 {
      TranslateFinalNewline(s[1..]);
    }
  }

  /**
   * The lines produced by iterating over a text file (`for line in f`) once its content has been
   * translated: every line keeps its `\n`, and only the last one may lack it.
   */
  function Lines(s: string): seq<string>
    decreases |s|
  {
    if s == [] then []
    else
      var rest := Lines(s[1..]);
      if s[0] == '\n' || rest == [] then [[s[0]]] + rest else [[s[0]] + rest[0]] + rest[1..]
  }

  /** Every line is non-empty, has its `\n` (if any) last, and holds no `\r` the text did not. */
  lemma {:induction false} LinesShape(s: string)
    ensures forall l :: l in Lines(s) ==> l != [] && NewlineOnlyAtEnd(l)
    ensures '\r' !in s ==> forall l :: l in Lines(s) ==> '\r' !in l
    decreases |s|
  {
    if s != [] {
      var rest := Lines(s[1..]);
      LinesShape(s[1..]);
      assert '\r' !in s ==> '\r' !in s[1..] by {
        assert forall k :: 0 <= k < |s| - 1 ==> s[1..][k] == s[k + 1];
      }
      if !(s[0] == '\n' || rest == []) {
        assert forall l :: l in rest[1..] ==> l in rest;
        var first := [s[0]] + rest[0];
        assert rest[0] in rest;
        assert forall k :: 1 <= k < |first| ==> first[k] == rest[0][k - 1];
      }
    }
  }

  /** A line as file iteration yields it: a `\n` can only be its last character. */
  predicate NewlineOnlyAtEnd(line: string) {
    forall k :: 0 <= k < |line| - 1 ==> line[k] != '\n'
  }

  /** Reading by lines loses nothing: the lines put back together are the text. */
  lemma {:induction false} LinesConcat(s: string)
    ensures Concat(Lines(s)) == s
    decreases |s|
  {
    if s != [] {
      var rest := Lines(s[1..]);
      LinesConcat(s[1..]);
      if s[0] == '\n' || rest == [] {
        assert ([[s[0]]] + rest)[1..] == rest;
      } else {
        var r := [[s[0]] + rest[0]] + rest[1..];
        assert r[1..] == rest[1..];
      }
      assert s == [s[0]] + s[1..];
    }
  }

  /** A file that ends with a line terminator can be extended without disturbing its lines. */
  lemma {:induction false} LinesAppend(a: string, b: string)
    requires a == [] || a[|a| - 1] == '\n'
    ensures Lines(a + b) == Lines(a) + Lines(b)
    decreases |a|
  {
    if a == [] {
      assert a + b == b;
    } else {
      assert (a + b)[1..] == a[1..] + b;
      if a[1..] != [] {
        LinesAppend(a[1..], b);
      }
    }
  }

  /** One line: a string whose only `\n` is its last character is read as exactly that line. */
  lemma {:induction false} LinesOfOneLine(line: string)
    requires |line| > 0 && line[|line| - 1] == '\n' && '\n' !in line[..|line| - 1]
    ensures Lines(line) == [line]
    decreases |line|
  {
    if |line| > 1 {
      assert line[0] == line[..|line| - 1][0];
      assert line[1..][..|line| - 2] == line[..|line| - 1][1..];
      LinesOfOneLine(line[1..]);
      assert line == [line[0]] + line[1..];
    } else {
      assert line == [line[0]];
    }
  }

  // ---------------------------------------------------------------------------
  // str.splitlines()
  // ---------------------------------------------------------------------------

  /** Python's `str.splitlines()`: pieces without terminators, and no empty piece after a final break. */
  function SplitLines(s: string): (r: seq<string>)
    ensures forall i :: 0 <= i < |r| ==> NoLineBreak(r[i])
    decreases |s|
  {
    if s == [] then []
    else if IsLineBreak(s[0]) then
      [[]] + SplitLines(if s[0] == '\r' && |s| > 1 && s[1] == '\n' then s[2..] else s[1..])
    else
      var rest := SplitLines(s[1..]);
      if rest == [] then [[s[0]]] else [[s[0]] + rest[0]] + rest[1..]
  }

  /** A non-empty piece without breaks is one line. */
  lemma {:induction false} SplitLinesSingle(p: string)
    requires p != [] && NoLineBreak(p)
    ensures SplitLines(p) == [p]
    decreases |p|
  {
    if |p| > 1 {
      assert forall k :: 0 <= k < |p| - 1 ==> p[1..][k] == p[k + 1];
      SplitLinesSingle(p[1..]);
      assert p == [p[0]] + p[1..];
    } else {
      assert p == [p[0]];
    }
  }

  /** A piece without breaks followed by `\n` is the first line. */
  lemma {:induction false} SplitLinesLine(p: string, u: string)
    requires NoLineBreak(p)
    ensures SplitLines(p + "\n" + u) == [p] + SplitLines(u)
    decreases |p|
  {
    if p == [] {
      assert p + "\n" + u == "\n" + u;
      assert ("\n" + u)[1..] == u;
    } else {
      assert (p + "\n" + u)[1..] == p[1..] + "\n" + u;
      SplitLinesLine(p[1..], u);
      assert p == [p[0]] + p[1..];
    }
  }

  /** Text whose pieces are joined by `\n` splits back into the same pieces. */
  lemma {:induction false} SplitLinesJoin(ls: seq<string>)
    requires forall i :: 0 <= i < |ls| ==> NoLineBreak(ls[i])
    requires ls == [] || ls[|ls| - 1] != []
    ensures SplitLines(Join("\n", ls)) == ls
    decreases |ls|
  {
    if |ls| == 1 {
      SplitLinesSingle(ls[0]);
    } else if |ls| > 1 {
      SplitLinesJoin(ls[1..]);
      SplitLinesLine(ls[0], Join("\n", ls[1..]));
      assert ls == [ls[0]] + ls[1..];
    }
  }

  // ---------------------------------------------------------------------------
  // Python slicing
  // ---------------------------------------------------------------------------

  /** How a slice bound `i` is read for a sequence of length `n`: from the end when negative, then clamped. */
  function SliceBound(i: int, n: nat): (r: nat)
    ensures r <= n
  {
    if i < 0 then (if i + n < 0 then 0 else i + n) else if i > n then n else i
  }

  /** Python's `s[start:]`. */
  function SliceFrom<T>(s: seq<T>, start: int): seq<T> {
    s[SliceBound(start, |s|)..]
  }

  /** Python's `s[:stop]`. */
  function SliceTo<T>(s: seq<T>, stop: int): seq<T> {
    s[..SliceBound(stop, |s|)]
  }

  // ---------------------------------------------------------------------------
  // str.replace and str(int)
  // ---------------------------------------------------------------------------

  /** Python's `s.replace(pat, rep)`: every non-overlapping occurrence, scanning left to right. */
  function Replace(s: string, pat: string, rep: string): string
    requires |pat| > 0
    decreases |s|
  {
    if |s| < |pat| then s
    else if s[..|pat|] == pat then rep + Replace(s[|pat|..], pat, rep)
    else [s[0]] + Replace(s[1..], pat, rep)
  }

  /** A string that cannot contain `pat` (it lacks one of its characters) is left alone. */
  lemma {:induction false} ReplaceAbsent(s: string, pat: string, rep: string, c: char)
    requires |pat| > 0 && c in pat && c !in s
    ensures Replace(s, pat, rep) == s
    decreases |s|
  {
    if |s| >= |pat| {
      assert forall k :: 0 <= k < |pat| ==> s[..|pat|][k] in s;
      ReplaceAbsent(s[1..], pat, rep, c);
      assert [s[0]] + s[1..] == s;
    }
  }

  function DigitChar(d: int): char
    requires 0 <= d < 10
  {
    ('0' as int + d) as char
  }

  /** Python's `str(n)` for a natural number: decimal digits, no leading zero. */
  function NatToString(n: nat): (r: string)
    ensures |r| > 0 && forall i :: 0 <= i < |r| ==> IsAsciiDigit(r[i])
    decreases n
  {
    if n < 10 then [DigitChar(n)] else NatToString(n / 10) + [DigitChar(n % 10)]
  }

  /** Python's `str(n)` for an integer. */
  function IntToString(n: int): string {
    if n < 0 then "-" + NatToString(-n) else NatToString(n)
  }
}
