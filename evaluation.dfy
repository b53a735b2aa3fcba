/**
 * Self-evaluation of reflections: a language model scores the most recent reflection files, each
 * score is logged as one CSV line `date-time,file name,reply`, and the log is later read back and
 * the four numeric scores (clarity, novelty, actionability, redundancy) are averaged.
 */
module Evaluation {
  import opened Wrappers
  import opened Text
  import opened Lex
  import opened Dates
  import opened Files
  import opened Prompts

  const DefaultReflectionsDir := "./data/reflections"
  const DefaultScoresFile := "./data/metrics/self_scores.csv"

  // ---------------------------------------------------------------------------
  // float(...) on a score field
  // ---------------------------------------------------------------------------

  predicate AllDigits(s: string) {
    forall i :: 0 <= i < |s| ==> IsAsciiDigit(s[i])
  }

  /** The value of the numeral `whole.frac`. */
  function PointValue(whole: string, frac: string): real
    requires AllDigits(whole) && AllDigits(frac)
  {
    DigitsValue(whole) as real + DigitsValue(frac) as real / Pow10(|frac|) as real
  }

  /** An unsigned decimal numeral `ddd`, `ddd.ddd`, `ddd.` or `.ddd`, with at least one digit. */
  function UnsignedValue(t: string): Option<real> {
    var pieces := Split(t, '.');
    if |pieces| == 1 then
      if t != [] && AllDigits(t) then Some(DigitsValue(t) as real) else None
    else if |pieces| == 2 && AllDigits(pieces[0]) && AllDigits(pieces[1]) && |pieces[0]| + |pieces[1]| > 0 then
      Some(PointValue(pieces[0], pieces[1]))
    else None
  }

  /** `float(field)`: surrounding whitespace is ignored and an optional sign may lead; `None` is a `ValueError`. */
  function ParseNumber(field: string): Option<real> {
    var t := Strip(field);
    if t != [] && (t[0] == '+' || t[0] == '-') then
      match UnsignedValue(t[1..])
      case None => None
      case Some(v) => Some(if t[0] == '-' then -v else v)
    else UnsignedValue(t)
  }

  lemma {:induction false} DigitsValueOfNat(n: nat)
    ensures DigitsValue(NatToString(n)) == n
    decreases n
  {
    if n >= 10 {
      var s := NatToString(n);
      assert s[..|s| - 1] == NatToString(n / 10);
      DigitsValueOfNat(n / 10);
    }
  }

  lemma DigitsNoSpace(s: string)
    requires s != [] && AllDigits(s)
    ensures !IsSpace(s[0]) && !IsSpace(s[|s| - 1]) && '.' !in s
  {
  }

  /** A whole number written in decimal reads back as itself. */
  lemma ParseNatToString(n: nat)
    ensures ParseNumber(NatToString(n)) == Some(n as real)
  {
    var s := NatToString(n);
    DigitsNoSpace(s);
    StripOfStripped(s);
    SplitNone(s, '.');
    DigitsValueOfNat(n);
  }

  /** A signed whole number, as `str(i)` writes it, reads back as itself. */
  lemma ParseIntToString(i: int)
    ensures ParseNumber(IntToString(i)) == Some(i as real)
  {
    if i < 0 {
      var d := NatToString(-i);
      var s := "-" + d;
      DigitsNoSpace(d);
      assert s[0] == '-' && s[1..] == d && s[|s| - 1] == d[|d| - 1];
      StripOfStripped(s);
      SplitNone(d, '.');
      DigitsValueOfNat(-i);
    } else {
      ParseNatToString(i);
    }
  }

  /** Digits, a point and digits read as the whole part plus the fraction. */
  lemma UnsignedDecimal(d: string, f: string)
    requires d != [] && AllDigits(d) && AllDigits(f)
    ensures UnsignedValue(d + "." + f) == Some(PointValue(d, f))
  {
    assert '.' !in f;
    DigitsNoSpace(d);
    var t := d + "." + f;
    assert t == d + ['.'] + f;
    SplitAround(d, f, '.');
    SplitNone(d, '.');
    SplitNone(f, '.');
    var pieces := Split(t, '.');
    assert pieces == [d, f];
    assert pieces[0] == d && pieces[1] == f && |pieces| == 2;
  }

  /** `a.ddd` is an unsigned number with nothing to strip. */
  lemma DecimalIsUnsigned(a: nat, b: nat, w: nat)
    ensures var s := NatToString(a) + "." + Pad(b, w); ParseNumber(s) == UnsignedValue(s)
  {
    var d, f := NatToString(a), Pad(b, w);
    var s := d + "." + f;
    DigitsNoSpace(d);
    assert s[0] == d[0];
    assert w > 0 ==> IsAsciiDigit(f[w - 1]);
    assert s[|s| - 1] == if w == 0 then '.' else f[w - 1];
    StripOfStripped(s);
    assert s[0] != '+' && s[0] != '-';
  }

  /** `a.ddd` with `w` fraction digits reads back as `a + b / 10^w`. */
  lemma ParseDecimal(a: nat, b: nat, w: nat)
    requires b < Pow10(w)
    ensures ParseNumber(NatToString(a) + "." + Pad(b, w)) == Some(a as real + b as real / Pow10(w) as real)
  {
    DecimalIsUnsigned(a, b, w);
    DecimalValue(a, b, w);
  }

  lemma DecimalValue(a: nat, b: nat, w: nat)
    requires b < Pow10(w)
    ensures UnsignedValue(NatToString(a) + "." + Pad(b, w)) == Some(a as real + b as real / Pow10(w) as real)
  {
    var d, f := NatToString(a), Pad(b, w);
    UnsignedDecimal(d, f);
    DigitsValueOfNat(a);
    DigitsValuePad(b, w);
  }

  // ---------------------------------------------------------------------------
  // Reading the score log
  // ---------------------------------------------------------------------------

  /** `line.strip().split(",")`. */
  function Parts(line: string): seq<string> {
    Split(Strip(line), ',')
  }

  /** The four score fields `parts[2]` to `parts[5]` of a line with at least eight fields. */
  function ScoreFields(parts: seq<string>): (r: Option<seq<string>>)
    ensures r.Some? ==> |r.value| == 4
  {
    if |parts| >= 8 then Some(parts[2..6]) else None
  }

  /** The values of the fields before the first one `float` rejects. */
  function LeadingValues(fields: seq<string>): (r: seq<real>)
    ensures |r| <= |fields|
    decreases |fields|
  {
    if fields == [] then []
    else
      match ParseNumber(fields[0])
      case None => []
      case Some(v) => [v] + LeadingValues(fields[1..])
  }

  /** Each value `LeadingValues` holds is the value of the field at the same position. */
  lemma {:induction false} LeadingValueAt(fields: seq<string>, k: nat)
    requires k < |LeadingValues(fields)|
    ensures ParseNumber(fields[k]) == Some(LeadingValues(fields)[k])
    decreases k
  {
    if k > 0 {
      assert LeadingValues(fields) == [LeadingValues(fields)[0]] + LeadingValues(fields[1..]);
      LeadingValueAt(fields[1..], k - 1);
    }
  }

  /** `LeadingValues` stops only at a field `float` rejects, or at the end. */
  lemma {:induction false} LeadingValuesStop(fields: seq<string>)
    ensures |LeadingValues(fields)| < |fields| ==> ParseNumber(fields[|LeadingValues(fields)|]).None?
    decreases |fields|
  {
    if fields != [] && ParseNumber(fields[0]).Some? {
      LeadingValuesStop(fields[1..]);
    }
  }

  /** The collected values: `clarity`, `novelty`, `actionability`, `redundancy`. */
  datatype Scores = Scores(clarity: seq<real>, novelty: seq<real>, actionability: seq<real>, redundancy: seq<real>)

  const NoScores := Scores([], [], [], [])

  function Column(vs: seq<real>, j: nat): seq<real> {
    if j < |vs| then [vs[j]] else []
  }

  /** Appends `vs[j]`, when there is one, to the `j`-th list. */
  function AddValues(sc: Scores, vs: seq<real>): Scores {
    Scores(sc.clarity + Column(vs, 0), sc.novelty + Column(vs, 1), sc.actionability + Column(vs, 2),
           sc.redundancy + Column(vs, 3))
  }

  /**
   * The lists as the loop of `summarize_scores` builds them: the four appends run one after the
   * other, and a `ValueError` skips the rest of the line but keeps what was already appended. So the
   * lists can only get shorter from clarity to redundancy.
   */
  function TallyAsWritten(lines: seq<string>): (r: Scores)
    ensures |r.clarity| >= |r.novelty| >= |r.actionability| >= |r.redundancy|
    decreases |lines|
  {
    if lines == [] then NoScores
    else
      var prev := TallyAsWritten(lines[..|lines| - 1]);
      match ScoreFields(Parts(lines[|lines| - 1]))
      case None => prev
      case Some(fields) => AddValues(prev, LeadingValues(fields))
  }

  /** What `summarize_scores` reports. */
  datatype Report =
    | NoDataYet                 // the score log does not exist
    | NothingToAverage          // no clarity value was read
    | Averages(clarity: real, novelty: real, actionability: real, redundancy: real)

  function Sum(xs: seq<real>): real
    decreases |xs|
  {
    if xs == [] then 0.0 else Sum(xs[..|xs| - 1]) + xs[|xs| - 1]
  }

  /** `statistics.mean`, in exact arithmetic. */
  function Mean(xs: seq<real>): real
    requires xs != []
  {
    Sum(xs) / |xs| as real
  }

  predicate InRange(xs: seq<real>, lo: real, hi: real) {
    forall k :: 0 <= k < |xs| ==> lo <= xs[k] <= hi
  }

  lemma {:induction false} SumBounds(xs: seq<real>, lo: real, hi: real)
    requires InRange(xs, lo, hi)
    ensures |xs| as real * lo <= Sum(xs) <= |xs| as real * hi
    decreases |xs|
  {
    if xs != [] {
      var init := xs[..|xs| - 1];
      assert InRange(init, lo, hi) by {
        assert forall k :: 0 <= k < |init| ==> init[k] == xs[k];
      }
      SumBounds(init, lo, hi);
      assert lo <= xs[|xs| - 1] <= hi;
      PeelOne(|init| as real, lo);
      PeelOne(|init| as real, hi);
    }
  }

  /** `(n + 1) * x == n * x + x`. */
  lemma PeelOne(n: real, x: real)
    ensures (n + 1.0) * x == n * x + x
  {
  }

  /** A mean lies between any bounds of its values. */
  lemma MeanBounds(xs: seq<real>, lo: real, hi: real)
    requires xs != [] && InRange(xs, lo, hi)
    ensures lo <= Mean(xs) <= hi
  {
    SumBounds(xs, lo, hi);
    var n := |xs| as real;
    assert Sum(xs) == Mean(xs) * n;
  }

  /**
   * The report as written: once a clarity value exists all four means are printed, and
   * `statistics.mean` of an empty list raises `StatisticsError`.
   */
  function ReportAsWritten(sc: Scores): Result<Report, string> {
    if sc.clarity == [] then Done(NothingToAverage)
    else if sc.novelty == [] || sc.actionability == [] || sc.redundancy == [] then Raised("StatisticsError")
    else Done(Averages(Mean(sc.clarity), Mean(sc.novelty), Mean(sc.actionability), Mean(sc.redundancy)))
  }

  /** `summarize_scores` as written, on the files `m`. */
  function SummaryAsWritten(m: map<string, string>, scoresFile: string): Result<Report, string> {
    if scoresFile !in m then Done(NoDataYet)
    else ReportAsWritten(TallyAsWritten(Lines(ReadText(m, scoresFile))))
  }

  /** The four scores of a line: it has at least eight fields and all four parse. */
  function LineScores(line: string): (r: Option<seq<real>>)
    ensures r.Some? ==> |r.value| == 4
  {
    match ScoreFields(Parts(line))
    case None => None
    case Some(fields) =>
      var vs := LeadingValues(fields);
      if |vs| == 4 then Some(vs) else None
  }

  predicate Aligned(sc: Scores) {
    |sc.novelty| == |sc.clarity| && |sc.actionability| == |sc.clarity| && |sc.redundancy| == |sc.clarity|
  }

  /** The lists with a line counted only when all four of its scores parse: they stay the same length. */
  function Tally(lines: seq<string>): (r: Scores)
    ensures Aligned(r) && |r.clarity| <= |lines|
    decreases |lines|
  {
    if lines == [] then NoScores
    else
      var prev := Tally(lines[..|lines| - 1]);
      match LineScores(lines[|lines| - 1])
      case None => prev
      case Some(vs) => AddValues(prev, vs)
  }

  function ReportOf(sc: Scores): Report
    requires Aligned(sc)
  {
    if sc.clarity == [] then NothingToAverage
    else Averages(Mean(sc.clarity), Mean(sc.novelty), Mean(sc.actionability), Mean(sc.redundancy))
  }

  /** The report on the files `m`, with whole lines counted. */
  function Summary(m: map<string, string>, scoresFile: string): Report {
    if scoresFile !in m then NoDataYet else ReportOf(Tally(Lines(ReadText(m, scoresFile))))
  }

  /** Every counted line of `lines` has its four scores in `[lo, hi]`. */
  predicate ScoresInRange(lines: seq<string>, lo: real, hi: real) {
    forall k :: 0 <= k < |lines| && LineScores(lines[k]).Some? ==> InRange(LineScores(lines[k]).value, lo, hi)
  }

  /** Appending a value in range to a list in range keeps it in range. */
  lemma AppendInRange(xs: seq<real>, vs: seq<real>, j: nat, lo: real, hi: real)
    requires InRange(xs, lo, hi) && InRange(vs, lo, hi)
    ensures InRange(xs + Column(vs, j), lo, hi)
  {
    var ys := xs + Column(vs, j);
    forall k | 0 <= k < |ys|
      ensures lo <= ys[k] <= hi
    {
      if k >= |xs| {
        assert ys[k] == vs[j];
      }
    }
  }

  /** All four lists lie in `[lo, hi]`. */
  predicate ScoresWithin(sc: Scores, lo: real, hi: real) {
    InRange(sc.clarity, lo, hi) && InRange(sc.novelty, lo, hi) && InRange(sc.actionability, lo, hi)
    && InRange(sc.redundancy, lo, hi)
  }

  lemma AddValuesInRange(sc: Scores, vs: seq<real>, lo: real, hi: real)
    requires ScoresWithin(sc, lo, hi) && InRange(vs, lo, hi)
    ensures ScoresWithin(AddValues(sc, vs), lo, hi)
  {
    AppendInRange(sc.clarity, vs, 0, lo, hi);
    AppendInRange(sc.novelty, vs, 1, lo, hi);
    AppendInRange(sc.actionability, vs, 2, lo, hi);
    AppendInRange(sc.redundancy, vs, 3, lo, hi);
  }

  /** Scores that lie in a range on every counted line keep every list in that range. */
  lemma {:induction false} TallyInRange(lines: seq<string>, lo: real, hi: real)
    requires ScoresInRange(lines, lo, hi)
    ensures ScoresWithin(Tally(lines), lo, hi)
    decreases |lines|
  {
    if lines != [] {
      var init := lines[..|lines| - 1];
      assert ScoresInRange(init, lo, hi) by {
        assert forall k :: 0 <= k < |init| ==> init[k] == lines[k];
      }
      TallyInRange(init, lo, hi);
      var last := |lines| - 1;
      assert 0 <= last < |lines|;
      match LineScores(lines[last])
      case None =>
      case Some(vs) =>
        assert InRange(vs, lo, hi);
        AddValuesInRange(Tally(init), vs, lo, hi);
    }
  }

  /** Every average reported lies in any range that all counted scores lie in (1 to 10, say). */
  lemma AveragesInRange(m: map<string, string>, scoresFile: string, lo: real, hi: real)
    requires scoresFile in m ==> ScoresInRange(Lines(ReadText(m, scoresFile)), lo, hi)
    ensures Summary(m, scoresFile).Averages? ==>
      var a := Summary(m, scoresFile);
      lo <= a.clarity <= hi && lo <= a.novelty <= hi && lo <= a.actionability <= hi && lo <= a.redundancy <= hi
  {
    if scoresFile in m {
      var lines := Lines(ReadText(m, scoresFile));
      var sc := Tally(lines);
      TallyInRange(lines, lo, hi);
      if sc.clarity != [] {
        MeanBounds(sc.clarity, lo, hi);
        MeanBounds(sc.novelty, lo, hi);
        MeanBounds(sc.actionability, lo, hi);
        MeanBounds(sc.redundancy, lo, hi);
      }
    }
  }

  // ---------------------------------------------------------------------------
  // Writing the score log
  // ---------------------------------------------------------------------------

  /** The log line written for one evaluation: `f"{now:%Y-%m-%d %H:%M:%S},{name},{reply}\n"`. */
  function LogLine(now: Instant, name: string, reply: string): string
    requires ValidInstant(now)
  {
    FormatDateTime(now) + "," + name + "," + reply + "\n"
  }

  /** Characters a date-time stamp never holds. */
  predicate Plain(c: char) {
    c != ',' && c != '\n' && c != '\r'
  }

  lemma FormatDateTimeShape(now: Instant)
    requires ValidInstant(now)
    ensures forall k :: 0 <= k < |FormatDateTime(now)| ==> Plain(FormatDateTime(now)[k])
    ensures !IsSpace(FormatDateTime(now)[0])
  {
    var d := FormatDateTime(now);
    assert IsAsciiDigit(Pad(now.date.year, 4)[0]);
    assert forall k :: 0 <= k < |d| ==> IsAsciiDigit(d[k]) || d[k] in "- :";
  }

  lemma StripNewline(x: string)
    requires x != [] && !IsSpace(x[0]) && !IsSpace(x[|x| - 1])
    ensures Strip(x + "\n") == x
  {
    var s := x + "\n";
    DropWhilePrefix([], s, IsSpace);
    assert [] + s == s;
    assert s[..|s| - 1] == x;
    assert DropWhileEnd(x, IsSpace) == x;
    assert DropWhileEnd(s, IsSpace) == DropWhileEnd(x, IsSpace);
  }

  /** Two comma-free fields in front of `c` become the first two pieces of the split. */
  lemma SplitTwoFields(a: string, b: string, c: string)
    requires ',' !in a && ',' !in b
    ensures Split(a + "," + b + "," + c, ',') == [a, b] + Split(c, ',')
  {
    var rest := b + [','] + c;
    assert a + "," + b + "," + c == a + [','] + rest by {
      Assoc(a + [','], b, [',']);
      Assoc(a + [','], b + [','], c);
      Assoc(b, [','], c);
    }
    SplitAround(a, rest, ',');
    SplitAround(b, c, ',');
    SplitNone(a, ',');
    SplitNone(b, ',');
    Assoc([a], [b], Split(c, ','));
  }

  /** The stripped log line is the line without its newline. */
  lemma LogLineStrip(now: Instant, name: string, reply: string)
    requires ValidInstant(now)
    requires reply != [] && !IsSpace(reply[|reply| - 1])
    ensures Strip(LogLine(now, name, reply)) == FormatDateTime(now) + "," + name + "," + reply
  {
    var d := FormatDateTime(now);
    var x := d + "," + name + "," + reply;
    FormatDateTimeShape(now);
    assert x[0] == d[0] && x[|x| - 1] == reply[|reply| - 1];
    StripNewline(x);
  }

  /** A logged evaluation splits into its time stamp, the file name and the fields of the reply. */
  lemma LoggedReplyParts(now: Instant, name: string, reply: string)
    requires ValidInstant(now) && ',' !in name
    requires reply != [] && !IsSpace(reply[|reply| - 1])
    ensures Parts(LogLine(now, name, reply)) == [FormatDateTime(now), name] + Split(reply, ',')
  {
    LogLineStrip(now, name, reply);
    FormatDateTimeShape(now);
    assert ',' !in FormatDateTime(now);
    SplitTwoFields(FormatDateTime(now), name, reply);
  }

  /**
   * A logged evaluation is scored by the reply's first four comma-separated fields, provided the
   * file name holds no comma, the reply does not end in whitespace and has at least six fields.
   */
  lemma LoggedReplyFields(now: Instant, name: string, reply: string)
    requires ValidInstant(now) && ',' !in name
    requires reply != [] && !IsSpace(reply[|reply| - 1])
    ensures ScoreFields(Parts(LogLine(now, name, reply)))
            == if |Split(reply, ',')| >= 6 then Some(Split(reply, ',')[..4]) else None
  {
    LoggedReplyParts(now, name, reply);
    FieldsAfterTwo(FormatDateTime(now), name, Split(reply, ','));
  }

  /** Behind two leading fields, the score fields are the first four of the rest. */
  lemma FieldsAfterTwo(d: string, name: string, fs: seq<string>)
    ensures ScoreFields([d, name] + fs) == if |fs| >= 6 then Some(fs[..4]) else None
  {
    if |fs| >= 6 {
      assert ([d, name] + fs)[2..6] == fs[..4];
    }
  }

  /** A log holding one line reads as that line. */
  lemma LogOfOneLine(now: Instant, name: string, reply: string)
    requires ValidInstant(now) && '\n' !in name && '\r' !in name
    requires '\n' !in reply && '\r' !in reply
    ensures Lines(Translate(LogLine(now, name, reply))) == [LogLine(now, name, reply)]
  {
    var d := FormatDateTime(now);
    var x := d + "," + name + "," + reply;
    var line := LogLine(now, name, reply);
    FormatDateTimeShape(now);
    assert '\r' !in d && '\n' !in d;
    assert line == x + "\n";
    assert '\r' !in line;
    TranslateNoReturn(line);
    assert line[..|line| - 1] == x;
    LinesOfOneLine(line);
  }

  /** Score fields whose first parses and whose second does not yield one value only. */
  lemma HalfScoredFields(fields: seq<string>)
    requires |fields| == 4 && ParseNumber(fields[0]).Some? && ParseNumber(fields[1]).None?
    ensures LeadingValues(fields) == [ParseNumber(fields[0]).value]
  {
    assert fields[1..][0] == fields[1];
    assert LeadingValues(fields[1..]) == [];
  }

  /**
   * A line whose clarity field is a number and whose novelty field is not leaves a clarity value
   * without a novelty value, so the summary as written raises; counting whole lines ignores it.
   */
  lemma HalfScoredLine(line: string)
    requires ScoreFields(Parts(line)).Some?
    requires ParseNumber(ScoreFields(Parts(line)).value[0]).Some?
    requires ParseNumber(ScoreFields(Parts(line)).value[1]).None?
    ensures ReportAsWritten(TallyAsWritten([line])) == Raised("StatisticsError")
    ensures Tally([line]) == NoScores
  {
    HalfScoredFields(ScoreFields(Parts(line)).value);
    assert [line][..0] == [];
  }

  /**
   * A reply whose first field is a number and whose second is not, once logged, makes
   * `summarize_scores` as written raise; counting whole lines only, the line is ignored.
   */
  lemma HalfScoredReplyRaises(now: Instant, name: string, reply: string, scoresFile: string)
    requires ValidInstant(now) && ',' !in name && '\n' !in name && '\r' !in name
    requires '\n' !in reply && '\r' !in reply && reply != [] && !IsSpace(reply[|reply| - 1])
    requires |Split(reply, ',')| >= 6
    requires ParseNumber(Split(reply, ',')[0]).Some? && ParseNumber(Split(reply, ',')[1]).None?
    ensures SummaryAsWritten(map[scoresFile := LogLine(now, name, reply)], scoresFile) == Raised("StatisticsError")
    ensures Summary(map[scoresFile := LogLine(now, name, reply)], scoresFile) == NothingToAverage
  {
    var line := LogLine(now, name, reply);
    var m := map[scoresFile := line];
    LogOfOneLine(now, name, reply);
    assert Lines(ReadText(m, scoresFile)) == [line];
    LoggedReplyFields(now, name, reply);
    HalfScoredLine(line);
  }

  // ---------------------------------------------------------------------------
  // The evaluator
  // ---------------------------------------------------------------------------

  /** The log text for the results `rs`, the `k`-th stamped `clock(k)`. */
  function LogText(rs: seq<(string, string)>, clock: nat -> Instant): string
    requires forall k: nat :: ValidInstant(clock(k))
    decreases |rs|
  {
    if rs == [] then []
    else LogText(rs[..|rs| - 1], clock) + LogLine(clock(|rs| - 1), rs[|rs| - 1].0, rs[|rs| - 1].1)
  }

  /** The files `m` once the evaluations `rs` have been logged: only the score log changes. */
  function Logged(m: map<string, string>, scoresFile: string, rs: seq<(string, string)>, clock: nat -> Instant)
    : map<string, string>
    requires forall k: nat :: ValidInstant(clock(k))
  {
    if rs == [] then m else m[scoresFile := ContentOr(m, scoresFile) + LogText(rs, clock)]
  }

  lemma UpdateTwice(m: map<string, string>, k: string, a: string, b: string)
    ensures m[k := a][k := b] == m[k := b]
  {
  }

  /** Logging one more evaluation appends its line to the score log. */
  lemma LoggedSnoc(m: map<string, string>, scoresFile: string, rs: seq<(string, string)>, r: (string, string),
                   clock: nat -> Instant)
    requires forall k: nat :: ValidInstant(clock(k))
    ensures var before := Logged(m, scoresFile, rs, clock);
      Logged(m, scoresFile, rs + [r], clock)
        == before[scoresFile := ContentOr(before, scoresFile) + LogLine(clock(|rs|), r.0, r.1)]
  {
    var line := LogLine(clock(|rs|), r.0, r.1);
    assert (rs + [r])[..|rs|] == rs;
    assert LogText(rs + [r], clock) == LogText(rs, clock) + line;
    var c := ContentOr(m, scoresFile);
    if rs == [] {
      assert LogText(rs, clock) + line == line;
    } else {
      Assoc(c, LogText(rs, clock), line);
      UpdateTwice(m, scoresFile, c + LogText(rs, clock), c + (LogText(rs, clock) + line));
    }
  }

  /**
   * The results of evaluating `paths` in order from the files `m`: each file is read as it is at
   * that moment, after the earlier evaluations have been logged.
   */
  function Evaluations(m: map<string, string>, paths: seq<string>, scoresFile: string, ask: Prompt -> string,
                       clock: nat -> Instant): (rs: seq<(string, string)>)
    requires forall p :: p in paths ==> p in m
    requires forall k: nat :: ValidInstant(clock(k))
    ensures |rs| == |paths|
    decreases |paths|
  {
    if paths == [] then []
    else
      var n := |paths| - 1;
      assert forall p :: p in paths[..n] ==> p in paths;
      var prev := Evaluations(m, paths[..n], scoresFile, ask, clock);
      var files := Logged(m, scoresFile, prev, clock);
      assert paths[n] in files;
      prev + [(Basename(paths[n]), ask(EvaluateReflection(ReadText(files, paths[n]))))]
  }

  /** One more file: its evaluation reads the files as the earlier evaluations left them. */
  lemma EvaluationsStep(m: map<string, string>, paths: seq<string>, scoresFile: string, ask: Prompt -> string,
                        clock: nat -> Instant, i: nat)
    requires forall p :: p in paths ==> p in m
    requires forall k: nat :: ValidInstant(clock(k))
    requires i < |paths|
    ensures forall p :: p in paths[..i] ==> p in m
    ensures forall p :: p in paths[..i + 1] ==> p in paths
    ensures var prev := Evaluations(m, paths[..i], scoresFile, ask, clock);
      var files := Logged(m, scoresFile, prev, clock);
      && paths[i] in files
      && Evaluations(m, paths[..i + 1], scoresFile, ask, clock)
         == prev + [(Basename(paths[i]), ask(EvaluateReflection(ReadText(files, paths[i]))))]
  {
    assert paths[..i + 1][..i] == paths[..i];
    assert forall p :: p in paths[..i + 1] ==> p in paths;
    assert paths[..i + 1][i] == paths[i];
  }

  /**
   * When the score log is not one of the evaluated files, the `k`-th evaluation sees the `k`-th
   * reflection as it was before the run.
   */
  lemma {:induction false} EvaluationAt(m: map<string, string>, paths: seq<string>, scoresFile: string,
                                        ask: Prompt -> string, clock: nat -> Instant, k: nat)
    requires forall p :: p in paths ==> p in m
    requires forall k: nat :: ValidInstant(clock(k))
    requires scoresFile !in paths && k < |paths|
    ensures Evaluations(m, paths, scoresFile, ask, clock)[k] == (Basename(paths[k]), ask(EvaluateReflection(ReadText(m, paths[k]))))
    decreases |paths|
  {
    var n := |paths| - 1;
    var init := paths[..n];
    assert forall p :: p in init ==> p in paths;
    var prev := Evaluations(m, init, scoresFile, ask, clock);
    if k == n {
      assert paths[n] in paths;
      assert Logged(m, scoresFile, prev, clock)[paths[n]] == m[paths[n]];
    } else {
      EvaluationAt(m, init, scoresFile, ask, clock, k);
      assert paths[k] == init[k];
    }
  }

  /** With the score log not among them, the evaluations are those of the files as they were, in order. */
  lemma EvaluationsReadOriginals(m: map<string, string>, paths: seq<string>, scoresFile: string,
                                 ask: Prompt -> string, clock: nat -> Instant)
    requires forall p :: p in paths ==> p in m
    requires forall k: nat :: ValidInstant(clock(k))
    requires scoresFile !in paths
    ensures forall k :: 0 <= k < |paths| ==>
      Evaluations(m, paths, scoresFile, ask, clock)[k] == (Basename(paths[k]), ask(EvaluateReflection(ReadText(m, paths[k]))))
  {
    forall k | 0 <= k < |paths|
      ensures Evaluations(m, paths, scoresFile, ask, clock)[k] == (Basename(paths[k]), ask(EvaluateReflection(ReadText(m, paths[k]))))
    {
      EvaluationAt(m, paths, scoresFile, ask, clock, k);
    }
  }

  /** `files[-days:]`: the last `days` of them for a positive count, but all of them for zero. */
  lemma RecentWindow(files: seq<string>, days: int)
    ensures days > 0 ==> SliceFrom(files, -days) == files[if days < |files| then |files| - days else 0..]
    ensures days == 0 ==> SliceFrom(files, -days) == files
    ensures days < 0 ==> SliceFrom(files, -days) == files[if -days < |files| then -days else |files|..]
  {
  }

  /** Every reflection picked for evaluation is an existing file. */
  lemma RecentAreFiles(listing: seq<string>, m: map<string, string>, dir: string, days: int)
    requires Enumerates(listing, ReflectionGlob(m, dir))
    ensures forall p :: p in SliceFrom(Sorted(listing), -days) ==> p in m
  {
    var files := Sorted(listing);
    forall p | p in SliceFrom(files, -days)
      ensures p in m
    {
      assert p in files;
      assert p in multiset(files);
      assert p in listing;
    }
  }

  class SelfEvaluator {
    const reflectionsDir: string
    const scoresFile: string
    const fs: FileSystem

    constructor(reflectionsDir: string, scoresFile: string, fs: FileSystem)
      ensures this.reflectionsDir == reflectionsDir && this.scoresFile == scoresFile && this.fs == fs
    {
      this.reflectionsDir := reflectionsDir;
      this.scoresFile := scoresFile;
      this.fs := fs;
    }

    /**
     * `evaluate_recent_reflections(days)`: nothing when there is no reflection, otherwise the
     * `(file name, reply)` of each of the last `days` reflections in name order, each logged as it is made.
     */
    method EvaluateRecentReflections(days: int, listing: seq<string>, ask: Prompt -> string, clock: nat -> Instant)
      returns (r: Option<seq<(string, string)>>)
      requires Enumerates(listing, ReflectionGlob(fs.files, reflectionsDir))
      requires forall k: nat :: ValidInstant(clock(k))
      modifies fs
      ensures listing == [] ==> r == None && fs.files == old(fs.files)
      ensures listing != [] ==>
        var latest := SliceFrom(Sorted(listing), -days);
        (forall p :: p in latest ==> p in old(fs.files))
        && r == Some(Evaluations(old(fs.files), latest, scoresFile, ask, clock))
        && fs.files == Logged(old(fs.files), scoresFile, r.value, clock)
    {
      if listing == [] {
        return None;
      }
      var files := Sorted(listing);
      var latest := SliceFrom(files, -days);
      RecentAreFiles(listing, fs.files, reflectionsDir, days);
      var results := EvaluateAll(latest, ask, clock);
      r := Some(results);
    }

    /** The loop of `evaluate_recent_reflections`: evaluate each path in order, logging each reply. */
    method EvaluateAll(latest: seq<string>, ask: Prompt -> string, clock: nat -> Instant)
      returns (results: seq<(string, string)>)
      requires forall p :: p in latest ==> p in fs.files
      requires forall k: nat :: ValidInstant(clock(k))
      modifies fs
      ensures results == Evaluations(old(fs.files), latest, scoresFile, ask, clock)
      ensures fs.files == Logged(old(fs.files), scoresFile, results, clock)
    {
      ghost var m0 := fs.files;
      results := [];
      var i := 0;
      while i < |latest|
        invariant 0 <= i <= |latest|
        invariant forall p :: p in latest[..i] ==> p in latest
        invariant results == Evaluations(m0, latest[..i], scoresFile, ask, clock)
        invariant fs.files == Logged(m0, scoresFile, results, clock)
      {
        EvaluationsStep(m0, latest, scoresFile, ask, clock, i);
        var path := latest[i];
        var name := Basename(path);
        var reply := ask(EvaluateReflection(ReadText(fs.files, path)));
        LoggedSnoc(m0, scoresFile, results, (name, reply), clock);
        fs.Append(scoresFile, LogLine(clock(i), name, reply));
        results := results + [(name, reply)];
        i := i + 1;
      }
      assert latest[..|latest|] == latest;
    }

    /**
     * `summarize_scores`, with a line counted only when all four of its scores parse (see the
     * findings): the report of `Summary`, whose averages are then always defined.
     */
    method SummarizeScores() returns (report: Report)
      ensures report == Summary(fs.files, scoresFile)
    {
      if scoresFile !in fs.files {
        return NoDataYet;
      }
      var lines := Lines(ReadText(fs.files, scoresFile));
      var sc := NoScores;
      var i := 0;
      while i < |lines|
        invariant 0 <= i <= |lines|
        invariant sc == Tally(lines[..i])
      {
        assert lines[..i + 1][..i] == lines[..i];
        match LineScores(lines[i]) {
          case Some(vs) => sc := AddValues(sc, vs);
          case None =>
        }
        i := i + 1;
      }
      assert lines[..|lines|] == lines;
      report := ReportOf(sc);
    }
  }
}
