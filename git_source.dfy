/**
 * The git source adapter: the output of `git log --pretty=format:%h|%s|%an|%ad` is read line by
 * line, and every line with at least four `|`-separated fields becomes one entry.
 */
module GitSource {
  import opened Wrappers
  import opened Text

  /** An entry: abbreviated hash, subject, author name, author date, and the source tag. */
  datatype Entry = Entry(id: string, summary: string, author: string, date: string, source: string)

  /** One output line: an entry from its first four fields, or nothing when there are fewer. */
  function ParseLine(line: string): (r: Option<Entry>)
    ensures r.Some? <==> |Split(line, '|')| >= 4
    ensures r.Some? ==> r.value.source == "git"
  {
    var parts := Split(line, '|');
    if |parts| >= 4 then Some(Entry(parts[0], parts[1], parts[2], parts[3], "git")) else None
  }

  /** The entries of the lines, in line order. */
  function Entries(lines: seq<string>): (r: seq<Entry>)
    ensures |r| <= |lines|
    decreases |lines|
  {
    if lines == [] then []
    else
      var n := |lines| - 1;
      Entries(lines[..n]) + Parsed(lines[n])
  }

  /** The entry of one line, if any, as a sequence. */
  function Parsed(line: string): seq<Entry> {
    match ParseLine(line)
    case Some(e) => [e]
    case None => []
  }

  /** The loop of `fetch_entries` over the command's output. */
  method FetchEntries(output: string) returns (entries: seq<Entry>)
    ensures entries == Entries(SplitLines(output))
  {
    var lines := SplitLines(output);
    entries := [];
    var i := 0;
    while i < |lines|
      invariant 0 <= i <= |lines|
      invariant entries == Entries(lines[..i])
    {
      assert lines[..i + 1][..i] == lines[..i];
      var parts := Split(lines[i], '|');
      if |parts| >= 4 {
        entries := entries + [Entry(parts[0], parts[1], parts[2], parts[3], "git")];
      }
      i := i + 1;
    }
    assert lines[..|lines|] == lines;
  }

  /** Entries of consecutive runs of lines come one run after the other. */
  lemma {:induction false} EntriesAppend(a: seq<string>, b: seq<string>)
    ensures Entries(a + b) == Entries(a) + Entries(b)
    decreases |b|
  {
    if b == [] {
      assert a + b == a;
    } else {
      var n := |b| - 1;
      Snoc(a, b);
      EntriesAppend(a, b[..n]);
      Assoc(Entries(a), Entries(b[..n]), Parsed(b[n]));
    }
  }

  /** Every entry is tagged `git` and comes from some line. */
  lemma {:induction false} EntriesFromLines(lines: seq<string>, e: Entry)
    requires e in Entries(lines)
    ensures e.source == "git"
    ensures exists i :: 0 <= i < |lines| && ParseLine(lines[i]) == Some(e)
    decreases |lines|
  {
    var n := |lines| - 1;
    if e in Entries(lines[..n]) {
      EntriesFromLines(lines[..n], e);
      var i :| 0 <= i < n && ParseLine(lines[..n][i]) == Some(e);
      assert lines[i] == lines[..n][i];
    } else {
      assert ParseLine(lines[n]) == Some(e);
    }
  }

  /** Empty output gives no entries. */
  lemma NoOutputNoEntries()
    ensures Entries(SplitLines("")) == []
  {
  }

  /** A commit as the format `%h|%s|%an|%ad` prints it. */
  datatype Commit = Commit(hash: string, subject: string, author: string, date: string)

  function FormatCommit(c: Commit): string {
    c.hash + "|" + c.subject + "|" + c.author + "|" + c.date
  }

  /** No field holds a `|` or a line break, and the hash is not empty. */
  predicate Printable(c: Commit) {
    c.hash != []
    && '|' !in c.hash && '|' !in c.subject && '|' !in c.author && '|' !in c.date
    && NoLineBreak(c.hash) && NoLineBreak(c.subject) && NoLineBreak(c.author) && NoLineBreak(c.date)
  }

  lemma JoinFour(a: string, b: string, c: string, d: string)
    ensures Join("|", [a, b, c, d]) == a + "|" + b + "|" + c + "|" + d
  {
    assert [a, b, c, d][1..] == [b, c, d];
    assert [b, c, d][1..] == [c, d];
    assert [c, d][1..] == [d];
    var cd := c + "|" + d;
    assert Join("|", [c, d]) == cd;
    Assoc(b + "|", c + "|", d);
    Assoc(b, "|", c + "|");
    assert Join("|", [b, c, d]) == b + "|" + c + "|" + d;
    var bcd := b + "|" + c + "|" + d;
    assert Join("|", [a, b, c, d]) == a + "|" + bcd;
    Assoc(a + "|", b + "|" + c + "|", d);
    Assoc(a + "|", b + "|" + c, "|");
    Assoc(a + "|", b + "|", c);
    Assoc(a + "|", b, "|");
  }

  lemma FormatSplit(c: Commit)
    requires Printable(c)
    ensures Split(FormatCommit(c), '|') == [c.hash, c.subject, c.author, c.date]
  {
    var parts := [c.hash, c.subject, c.author, c.date];
    JoinFour(c.hash, c.subject, c.author, c.date);
    SplitJoin(parts, '|');
  }

  /** Round trip: a printed commit line parses back into exactly its four fields. */
  lemma ParseFormat(c: Commit)
    requires Printable(c)
    ensures ParseLine(FormatCommit(c)) == Some(Entry(c.hash, c.subject, c.author, c.date, "git"))
  {
    FormatSplit(c);
  }

  /** A `|` inside a subject splits it: the second half becomes the author and the author the date. */
  lemma PipeInSubjectShifts(hash: string, s1: string, s2: string, author: string, date: string)
    requires '|' !in hash && '|' !in s1 && '|' !in s2 && '|' !in author && '|' !in date
    ensures ParseLine(hash + "|" + s1 + "|" + s2 + "|" + author + "|" + date) == Some(Entry(hash, s1, s2, author, "git"))
  {
    var parts := [hash, s1, s2, author, date];
    JoinFour(s1, s2, author, date);
    assert parts[1..] == [s1, s2, author, date];
    assert Join("|", parts) == hash + "|" + Join("|", parts[1..]);
    var rest := s1 + "|" + s2 + "|" + author + "|" + date;
    Assoc(hash + "|", s1 + "|" + s2 + "|" + author + "|", date);
    Assoc(hash + "|", s1 + "|" + s2 + "|" + author, "|");
    Assoc(hash + "|", s1 + "|" + s2 + "|", author);
    Assoc(hash + "|", s1 + "|" + s2, "|");
    Assoc(hash + "|", s1 + "|", s2);
    Assoc(hash + "|", s1, "|");
    assert hash + "|" + rest == hash + "|" + s1 + "|" + s2 + "|" + author + "|" + date;
    SplitJoin(parts, '|');
  }

  /** The commits printed one per line. */
  function Printed(cs: seq<Commit>): (r: seq<string>)
    ensures |r| == |cs|
    decreases |cs|
  {
    if cs == [] then [] else Printed(cs[..|cs| - 1]) + [FormatCommit(cs[|cs| - 1])]
  }

  /** The entries the commits should give. */
  function AsEntries(cs: seq<Commit>): (r: seq<Entry>)
    ensures |r| == |cs|
    decreases |cs|
  {
    if cs == [] then []
    else
      var c := cs[|cs| - 1];
      AsEntries(cs[..|cs| - 1]) + [Entry(c.hash, c.subject, c.author, c.date, "git")]
  }

  lemma {:induction false} EntriesOfPrinted(cs: seq<Commit>)
    requires forall i :: 0 <= i < |cs| ==> Printable(cs[i])
    ensures Entries(Printed(cs)) == AsEntries(cs)
    decreases |cs|
  {
    if cs != [] {
      var n := |cs| - 1;
      EntriesOfPrinted(cs[..n]);
      ParseFormat(cs[n]);
      assert Printed(cs)[..n] == Printed(cs[..n]);
    }
  }

  lemma {:induction false} PrintedLines(cs: seq<Commit>)
    requires forall i :: 0 <= i < |cs| ==> Printable(cs[i])
    ensures forall i :: 0 <= i < |cs| ==> NoLineBreak(Printed(cs)[i]) && Printed(cs)[i] != []
    decreases |cs|
  {
    if cs != [] {
      var n := |cs| - 1;
      PrintedLines(cs[..n]);
      var c := cs[n];
      var s := FormatCommit(c);
      assert s[0] == c.hash[0];
      forall k | 0 <= k < |s|
        ensures !IsLineBreak(s[k])
      {
        assert s == c.hash + ("|" + (c.subject + ("|" + (c.author + ("|" + c.date)))));
        if k < |c.hash| {
          assert s[k] == c.hash[k];
        }
      }
    }
  }

  /**
   * Round trip over a whole output: commits printed one per line, with no field holding `|` or a
   * line break, are read back as exactly their entries, in order.
   */
  lemma FetchPrinted(cs: seq<Commit>)
    requires forall i :: 0 <= i < |cs| ==> Printable(cs[i])
    ensures Entries(SplitLines(Join("\n", Printed(cs)))) == AsEntries(cs)
  {
    PrintedLines(cs);
    SplitLinesJoin(Printed(cs));
    EntriesOfPrinted(cs);
  }
}
