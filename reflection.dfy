/**
 * The reflection engine: the open-questions file (one `- question` bullet per line), the choice
 * and removal of a question to revisit, and the dated reflection document.
 *
 * The random choice is the parameter `pick` (any natural number selects some question, and every
 * question can be selected); the language model is the parameter `ask`; today's date and the
 * current time are parameters too.
 */
module Reflection {
  import opened Wrappers
  import opened Text
  import opened Dates
  import opened Files
  import opened Prompts
  import opened Insights

  // ---------------------------------------------------------------------------
  // Reading questions
  // ---------------------------------------------------------------------------

  /** No whitespace at either end, which is what `strip()` leaves. */
  predicate Trimmed(s: string) {
    s == [] || (!IsSpace(s[0]) && !IsSpace(s[|s| - 1]))
  }

  /** `line.strip("- ").strip()`. */
  function Clean(line: string): (r: string)
    ensures Trimmed(r)
  {
    Strip(StripDashes(line))
  }

  /** `not line.strip()`. */
  predicate IsBlank(line: string) {
    Strip(line) == []
  }

  /** Cleaning only removes characters from the ends of a line. */
  lemma CleanChars(line: string)
    ensures forall c :: c in Clean(line) ==> c in line
    ensures NewlineOnlyAtEnd(line) ==> '\n' !in Clean(line)
  {
    var x := StripDashes(line);
    var c := Clean(line);
    var a1 := StripBySlice(line, IsDashOrSpace);
    var a2 := StripBySlice(x, IsSpace);
    var a := a1 + a2;
    forall k | 0 <= k < |c| ensures c[k] == line[a + k] {
      assert c[k] == x[a2 + k];
    }
    forall x | x in c ensures x in line {
      var k :| 0 <= k < |c| && c[k] == x;
      assert line[a + k] == x;
    }
    if NewlineOnlyAtEnd(line) {
      forall k | 0 <= k < |c| ensures c[k] != '\n' {
        if k == |c| - 1 {
          assert !IsSpace(c[k]);
        } else {
          assert a + k < |line| - 1;
        }
      }
    }
  }

  /** `[line.strip("- ").strip() for line in lines if line.strip()]`. */
  function CleanNonBlank(lines: seq<string>): seq<string>
    decreases |lines|
  {
    if lines == [] then []
    else (if IsBlank(lines[0]) then [] else [Clean(lines[0])]) + CleanNonBlank(lines[1..])
  }

  /**
   * Cleaned lines are trimmed, and when the lines are those of a file read by lines, they hold
   * no line terminator.
   */
  lemma {:induction false} CleanNonBlankShape(lines: seq<string>)
    ensures forall q :: q in CleanNonBlank(lines) ==> Trimmed(q)
    ensures (forall l :: l in lines ==> NewlineOnlyAtEnd(l) && '\r' !in l) ==>
              forall q :: q in CleanNonBlank(lines) ==> '\n' !in q && '\r' !in q
    decreases |lines|
  {
    if lines != [] {
      CleanChars(lines[0]);
      assert forall l :: l in lines[1..] ==> l in lines;
      CleanNonBlankShape(lines[1..]);
    }
  }

  lemma {:induction false} CleanNonBlankAppend(a: seq<string>, b: seq<string>)
    ensures CleanNonBlank(a + b) == CleanNonBlank(a) + CleanNonBlank(b)
    decreases |a|
  {
    if a == [] {
      assert a + b == b;
    } else {
      assert (a + b)[0] == a[0] && (a + b)[1..] == a[1..] + b;
      CleanNonBlankAppend(a[1..], b);
    }
  }

  /** `[q for q in qs if q != x]`: every other entry, in the same order. */
  function Without(qs: seq<string>, x: string): seq<string>
    decreases |qs|
  {
    if qs == [] then [] else (if qs[0] == x then [] else [qs[0]]) + Without(qs[1..], x)
  }

  /** `x` is gone, and every other entry keeps its number of copies. */
  lemma {:induction false} WithoutCounts(qs: seq<string>, x: string)
    ensures x !in Without(qs, x)
    ensures forall q :: q != x ==> multiset(Without(qs, x))[q] == multiset(qs)[q]
    ensures forall q :: q in Without(qs, x) ==> q in qs
    decreases |qs|
  {
    if qs != [] {
      WithoutCounts(qs[1..], x);
      assert qs == [qs[0]] + qs[1..];
    }
  }

  lemma {:induction false} WithoutAppend(a: seq<string>, b: seq<string>, x: string)
    ensures Without(a + b, x) == Without(a, x) + Without(b, x)
    decreases |a|
  {
    if a == [] {
      assert a + b == b;
    } else {
      assert (a + b)[0] == a[0] && (a + b)[1..] == a[1..] + b;
      WithoutAppend(a[1..], b, x);
    }
  }

  /** Removing what is not there changes nothing. */
  lemma {:induction false} WithoutAbsent(qs: seq<string>, x: string)
    requires x !in qs
    ensures Without(qs, x) == qs
    decreases |qs|
  {
    if qs != [] {
      assert qs[1..] == qs[1..] && forall q :: q in qs[1..] ==> q in qs;
      WithoutAbsent(qs[1..], x);
      assert qs == [qs[0]] + qs[1..];
    }
  }

  /** What `_load_open_questions` keeps of a loaded line. */
  predicate IsLoaded(q: string) {
    q != [] && Trimmed(q) && '\n' !in q && '\r' !in q
  }

  /** `_load_open_questions` on the content of the questions file. */
  function ParseQuestions(content: string): seq<string> {
    Without(CleanNonBlank(Lines(Translate(content))), [])
  }

  /** Every question read from the file is non-empty, trimmed and a single line. */
  lemma ParseQuestionsLoaded(content: string)
    ensures forall q :: q in ParseQuestions(content) ==> IsLoaded(q)
  {
    var lines := Lines(Translate(content));
    LinesShape(Translate(content));
    CleanNonBlankShape(lines);
    WithoutCounts(CleanNonBlank(lines), []);
  }

  /** The open questions: none when the questions file does not exist. */
  function OpenQuestions(files: map<string, string>, questionsFile: string): seq<string> {
    if questionsFile in files then ParseQuestions(files[questionsFile]) else []
  }

  // ---------------------------------------------------------------------------
  // Writing questions
  // ---------------------------------------------------------------------------

  function Bullet(q: string): string {
    "- " + q + "\n"
  }

  /** The text `f.write(f"- {q}\n")` writes for each question in turn. */
  function Bullets(qs: seq<string>): string
    decreases |qs|
  {
    if qs == [] then [] else Bullet(qs[0]) + Bullets(qs[1..])
  }

  /** The bullets end with a line break and add no `\r` of their own. */
  lemma {:induction false} BulletsShape(qs: seq<string>)
    ensures Bullets(qs) == [] || Bullets(qs)[|Bullets(qs)| - 1] == '\n'
    ensures (forall q :: q in qs ==> '\r' !in q) ==> '\r' !in Bullets(qs)
    decreases |qs|
  {
    if qs != [] {
      assert forall q :: q in qs[1..] ==> q in qs;
      BulletsShape(qs[1..]);
    }
  }

  lemma {:induction false} BulletsAppend(a: seq<string>, b: seq<string>)
    ensures Bullets(a + b) == Bullets(a) + Bullets(b)
    decreases |a|
  {
    if a == [] {
      assert a + b == b;
    } else {
      assert (a + b)[0] == a[0] && (a + b)[1..] == a[1..] + b;
      BulletsAppend(a[1..], b);
    }
  }

  /** One more bullet at the end. */
  lemma BulletsSnoc(qs: seq<string>, i: int)
    requires 0 <= i < |qs|
    ensures Bullets(qs[..i + 1]) == Bullets(qs[..i]) + Bullet(qs[i])
  {
    BulletsAppend(qs[..i], [qs[i]]);
    assert qs[..i + 1] == qs[..i] + [qs[i]];
    assert [qs[i]][1..] == [];
    assert Bullets([qs[i]]) == Bullet(qs[i]) + Bullets([]) == Bullet(qs[i]);
  }

  /** A question that survives being written as a bullet and read back. */
  predicate WellFormed(q: string) {
    IsLoaded(q) && !StartsWith(q, "-")
  }

  /**
   * A line made of dashes and spaces, then a trimmed text that starts with neither, then a line
   * break, cleans to that text.
   */
  lemma CleanOf(pre: string, body: string)
    requires forall i :: 0 <= i < |pre| ==> IsDashOrSpace(pre[i])
    requires body != [] && Trimmed(body) && !IsDashOrSpace(body[0]) && '\n' !in body
    ensures !IsBlank(pre + body + "\n") && Clean(pre + body + "\n") == body
  {
    var line := pre + body + "\n";
    var u := body + "\n";
    assert line == pre + u;
    DropWhilePrefix(pre, u, IsDashOrSpace);
    assert u[|u| - 1] == '\n' && u[0] == body[0];
    assert StripDashes(line) == u;
    assert DropWhile(u, IsSpace) == u;
    assert u[..|u| - 1] == body;
    assert DropWhileEnd(u, IsSpace) == DropWhileEnd(body, IsSpace) == body;
    StripEmptyIff(line);
    assert line[|pre|] == body[0];
  }

  lemma CleanBullet(q: string)
    requires WellFormed(q)
    ensures !IsBlank(Bullet(q)) && Clean(Bullet(q)) == q
  {
    assert q[..1] == [q[0]];
    assert Bullet(q) == "- " + q + "\n";
    CleanOf("- ", q);
  }

  lemma BulletIsLine(q: string)
    requires '\n' !in q
    ensures Lines(Bullet(q)) == [Bullet(q)]
  {
    var b := Bullet(q);
    assert b[..|b| - 1] == "- " + q;
    assert '\n' !in "- " + q;
    LinesOfOneLine(b);
  }

  /** Bullets of well-formed questions read back as those questions. */
  lemma {:induction false} ParseBullets(qs: seq<string>)
    requires forall q :: q in qs ==> WellFormed(q)
    ensures CleanNonBlank(Lines(Bullets(qs))) == qs
    decreases |qs|
  {
    if qs != [] {
      var q, tail := qs[0], qs[1..];
      var b, rest := Bullet(q), Bullets(tail);
      assert Bullets(qs) == b + rest;
      assert q in qs;
      BulletIsLine(q);
      LinesAppend(b, rest);
      var ls := Lines(rest);
      assert Lines(Bullets(qs)) == [b] + ls;
      CleanBullet(q);
      assert CleanNonBlank([b] + ls) == [q] + CleanNonBlank(ls) by {
        assert ([b] + ls)[0] == b && ([b] + ls)[1..] == ls;
      }
      assert forall x :: x in tail ==> x in qs;
      ParseBullets(tail);
      assert qs == [q] + tail;
    }
  }

  /**
   * Saving questions after a file that ends with a line break (or is empty) and reading the
   * file again yields the questions read before followed by the saved ones.
   */
  lemma RoundTrip(content: string, qs: seq<string>)
    requires content == [] || content[|content| - 1] == '\n'
    requires forall q :: q in qs ==> WellFormed(q)
    ensures ParseQuestions(content + Bullets(qs)) == ParseQuestions(content) + qs
  {
    var b := Bullets(qs);
    BulletsShape(qs);
    TranslateAppend(content, b);
    TranslateNoReturn(b);
    var t := Translate(content);
    if content != [] {
      TranslateFinalNewline(content);
    }
    LinesAppend(t, b);
    CleanNonBlankAppend(Lines(t), Lines(b));
    ParseBullets(qs);
    WithoutAppend(CleanNonBlank(Lines(t)), qs, []);
    WithoutAbsent(qs, []);
  }

  /** Saving a question that is already open keeps both copies. */
  lemma SavingKeepsDuplicates(content: string, q: string)
    requires content == [] || content[|content| - 1] == '\n'
    requires WellFormed(q)
    ensures multiset(ParseQuestions(content + Bullet(q)))[q] == multiset(ParseQuestions(content))[q] + 1
  {
    assert [q][1..] == [];
    assert Bullets([q]) == Bullet(q) + Bullets([]) == Bullet(q);
    RoundTrip(content, [q]);
    assert multiset(ParseQuestions(content) + [q]) == multiset(ParseQuestions(content)) + multiset{q};
  }

  /** A file of one terminated line holds one question, the cleaned line. */
  lemma ParseOneLine(line: string)
    requires |line| > 0 && line[|line| - 1] == '\n' && '\n' !in line[..|line| - 1] && '\r' !in line
    requires !IsBlank(line) && Clean(line) != []
    ensures ParseQuestions(line) == [Clean(line)]
  {
    TranslateNoReturn(line);
    LinesOfOneLine(line);
    assert [line][1..] == [];
    assert CleanNonBlank([line]) == [Clean(line)] + CleanNonBlank([]);
    assert [Clean(line)][1..] == [];
    assert Without([Clean(line)], []) == [Clean(line)] + Without([], []);
  }

  /** A last line without a line break is continued by the first saved question. */
  lemma LastLineMerges(a: string, b: string)
    requires WellFormed(a) && WellFormed(b) && a[0] != ' '
    ensures ParseQuestions("- " + a + Bullet(b)) == [a + "- " + b]
  {
    var body := a + "- " + b;
    var line := "- " + body + "\n";
    assert "- " + a + Bullet(b) == line;
    assert body[0] == a[0] && body[|body| - 1] == b[|b| - 1];
    assert !IsDashOrSpace(a[0]) by {
      assert a[..1] == [a[0]];
    }
    assert '\n' !in body && '\r' !in body by {
      assert forall k :: 0 <= k < |body| ==> body[k] in a || body[k] in "- " || body[k] in b;
    }
    CleanOf("- ", body);
    assert '\n' !in line[..|line| - 1] && '\r' !in line by {
      assert line[..|line| - 1] == "- " + body;
    }
    ParseOneLine(line);
  }

  /** A question saved with a leading dash loses it when read back. */
  lemma LeadingDashLost(q: string)
    requires WellFormed(q) && q[0] != ' '
    ensures ParseQuestions(Bullet("-" + q)) == [q]
  {
    var line := "- -" + q + "\n";
    assert Bullet("-" + q) == line;
    assert q[..1] == [q[0]];
    CleanOf("- -", q);
    assert line[..|line| - 1] == "- -" + q;
    ParseOneLine(line);
  }

  /**
   * `strip("- ")` runs before the line break is removed, so a trailing dash survives on a line
   * that ends with a break and is removed on a last line without one.
   */
  lemma TrailingDashDependsOnBreak()
    ensures Clean("- a -\n") == "a -"
    ensures Clean("- a -") == "a"
  {
    assert DropWhile("- a -\n", IsDashOrSpace) == "a -\n";
    assert DropWhile("a -\n", IsSpace) == "a -\n";
    assert DropWhileEnd("a -\n", IsSpace) == "a -";
    assert DropWhile("- a -", IsDashOrSpace) == "a -";
    assert DropWhileEnd("a -", IsDashOrSpace) == "a";
  }

  // ---------------------------------------------------------------------------
  // New questions from a model reply
  // ---------------------------------------------------------------------------

  /** The bullet-point heuristic applied to the model's reply. */
  function ExtractQuestions(reply: string): seq<string> {
    CleanNonBlank(SplitLines(reply))
  }

  /** The extracted questions are trimmed single lines (possibly empty). */
  lemma ExtractQuestionsShape(reply: string)
    ensures forall q :: q in ExtractQuestions(reply) ==> Trimmed(q) && '\n' !in q && '\r' !in q
  {
    var lines := SplitLines(reply);
    forall l | l in lines ensures NewlineOnlyAtEnd(l) && '\r' !in l {
      var i :| 0 <= i < |lines| && lines[i] == l;
      assert NoLineBreak(l);
    }
    CleanNonBlankShape(lines);
  }

  /** Unlike reading the questions file, the reply heuristic keeps empty questions. */
  lemma DashLineIsEmptyQuestion()
    ensures ExtractQuestions("---") == [""]
  {
    SplitLinesSingle("---");
    assert DropWhile("---", IsSpace) == "---";
    assert DropWhileEnd("---", IsSpace) == "---";
    assert DropWhile("---", IsDashOrSpace) == "";
    assert CleanNonBlank(["---"]) == [Clean("---")] + CleanNonBlank([]);
  }

  // ---------------------------------------------------------------------------
  // Choosing a question
  // ---------------------------------------------------------------------------

  /** `random.choice(questions) if questions else None`, the draw being `pick`. */
  function SelectQuestion(qs: seq<string>, pick: nat): (r: Option<string>)
    ensures r.None? <==> qs == []
    ensures r.Some? ==> r.value in qs
  {
    if qs == [] then None else Some(qs[pick % |qs|])
  }

  /** Every open question can be the one chosen. */
  lemma SelectAny(qs: seq<string>, q: string)
    requires q in qs
    ensures exists pick: nat :: SelectQuestion(qs, pick) == Some(q)
  {
    var i :| 0 <= i < |qs| && qs[i] == q;
    assert SelectQuestion(qs, i) == Some(q);
  }

  /** Python truthiness of an optional string. */
  predicate Truthy(o: Option<string>) {
    o.Some? && o.value != []
  }

  /** A question is revisited exactly when there are open questions. */
  lemma RevisitGuard(files: map<string, string>, questionsFile: string, pick: nat)
    ensures Truthy(SelectQuestion(OpenQuestions(files, questionsFile), pick))
            <==> OpenQuestions(files, questionsFile) != []
  {
    if questionsFile in files {
      ParseQuestionsLoaded(files[questionsFile]);
    }
  }

  // ---------------------------------------------------------------------------
  // The reflection document
  // ---------------------------------------------------------------------------

  datatype Revisit = Revisit(question: string, answer: string)

  function Header(date: string): string {
    "# Reflection \U{2014} " + date + "\n\n"
  }

  function RevisitSection(rv: Option<Revisit>): string {
    match rv
    case None => ""
    case Some(v) => "## Revisited Question\n" + ("**" + v.question + "**\n\n" + v.answer + "\n\n")
  }

  /** Everything before the bullets of new questions. */
  function DocumentHead(date: string, rv: Option<Revisit>, summary: string): string {
    Header(date) + RevisitSection(rv) + "## Summary\n" + (summary + "\n\n") + "## New Questions\n"
  }

  function Document(date: string, rv: Option<Revisit>, summary: string, newQs: seq<string>): string {
    DocumentHead(date, rv, summary) + Bullets(newQs)
  }

  /**
   * The document opens with its dated header, has a revisited section right after it exactly
   * when a question was answered, and ends with the new questions as bullets.
   */
  lemma DocumentLayout(date: string, rv: Option<Revisit>, summary: string, newQs: seq<string>)
    ensures StartsWith(Document(date, rv, summary, newQs), Header(date))
    ensures EndsWith(Document(date, rv, summary, newQs), "## New Questions\n" + Bullets(newQs))
    ensures StartsWith(Document(date, rv, summary, newQs)[|Header(date)|..], "## Revisited Question\n")
            <==> rv.Some?
  {
    var h, rs, m, t, n, b := Header(date), RevisitSection(rv), "## Summary\n", summary + "\n\n", "## New Questions\n", Bullets(newQs);
    var doc := Document(date, rv, summary, newQs);
    assert doc == h + rs + m + t + n + b;
    Assoc(h, rs, m);
    Assoc(h, rs + m, t);
    Assoc(h, rs + m + t, n);
    Assoc(h, rs + m + t + n, b);
    assert doc == h + (rs + m + t + n + b);
    Assoc(rs + m, t, n);
    Assoc(rs + m, t + n, b);
    SectionMarker(rv, t + n + b);
    Assoc(h + rs + m + t, n, b);
    assert doc == (h + rs + m + t) + (n + b);
  }

  /** The text after the header starts with the revisited marker exactly when there is a revisit. */
  lemma SectionMarker(rv: Option<Revisit>, t: string)
    ensures StartsWith(RevisitSection(rv) + "## Summary\n" + t, "## Revisited Question\n") <==> rv.Some?
  {
    var m := "## Revisited Question\n";
    var rest := RevisitSection(rv) + "## Summary\n" + t;
    if rv.Some? {
      assert rest == m + ("**" + rv.value.question + "**\n\n" + rv.value.answer + "\n\n" + "## Summary\n" + t);
      assert rest[..|m|] == m;
    } else {
      assert rest == "## Summary\n" + t;
      assert rest[3] == 'S';
      if |m| <= |rest| {
        assert rest[..|m|][3] == 'S' && m[3] == 'R';
      }
    }
  }

  // ---------------------------------------------------------------------------
  // One reflection
  // ---------------------------------------------------------------------------

  /** What `reflect` returns. */
  datatype Reflected = Reflected(summary: string, answered: Option<string>, newQuestions: seq<string>)

  /** The question revisited and its answer, recorded when both are non-empty. */
  function Revisited(qs: seq<string>, pick: nat, ask: Prompt -> string): Option<Revisit> {
    var chosen := SelectQuestion(qs, pick);
    if Truthy(chosen) && ask(AnswerQuestion(chosen.value)) != [] then
      Some(Revisit(chosen.value, ask(AnswerQuestion(chosen.value))))
    else None
  }

  function ReflectionPath(reflectionsDir: string, today: Date): string
    requires ValidDate(today)
  {
    PathJoin(reflectionsDir, "reflection_" + FormatDate(today) + ".md")
  }

  /** The files after `reflect`. */
  function FilesAfterReflect(files: map<string, string>, questionsFile: string, reflectionsDir: string,
                             ask: Prompt -> string, pick: nat, today: Date): map<string, string>
    requires ValidDate(today)
  {
    var qs := OpenQuestions(files, questionsFile);
    var chosen := SelectQuestion(qs, pick);
    var afterRemoval := if Truthy(chosen) then files[questionsFile := Bullets(Without(qs, chosen.value))] else files;
    var newQs := ExtractQuestions(ask(NewQuestions));
    var afterSave := afterRemoval[questionsFile := ContentOr(afterRemoval, questionsFile) + Bullets(newQs)];
    afterSave[ReflectionPath(reflectionsDir, today) :=
      Document(FormatDate(today), Revisited(qs, pick, ask), ask(RecurringThemes), newQs)]
  }

  /** The insight rows `reflect` adds. */
  function RowsAddedByReflect(files: map<string, string>, questionsFile: string,
                              ask: Prompt -> string, pick: nat, now: Instant): seq<Row>
    requires ValidInstant(now)
  {
    match Revisited(OpenQuestions(files, questionsFile), pick, ask)
    case None => []
    case Some(v) =>
      var tags := ask(SuggestTags(v.question, v.answer));
      [Row(FormatDateTime(now), ask(CategorizeQuestion(v.question)), v.question, v.answer, TagsText(Some(Split(tags, ','))))]
  }

  /**
   * At most one insight is stored, and only when an open question got a non-empty answer: it
   * holds that question, that answer, and exactly the model's tag text.
   */
  lemma ReflectInsight(files: map<string, string>, questionsFile: string, ask: Prompt -> string,
                       pick: nat, now: Instant)
    requires ValidInstant(now)
    ensures var rows := RowsAddedByReflect(files, questionsFile, ask, pick, now);
            var qs := OpenQuestions(files, questionsFile);
            |rows| <= 1
            && (|rows| == 1 <==> qs != [] && ask(AnswerQuestion(SelectQuestion(qs, pick).value)) != [])
            && (|rows| == 1 ==>
                  rows[0].question == SelectQuestion(qs, pick).value
                  && rows[0].question in qs
                  && rows[0].topic == ask(CategorizeQuestion(rows[0].question))
                  && rows[0].answer == ask(AnswerQuestion(rows[0].question))
                  && rows[0].tags == ask(SuggestTags(rows[0].question, rows[0].answer))
                  && rows[0].date == FormatDateTime(now))
  {
    var qs := OpenQuestions(files, questionsFile);
    RevisitGuard(files, questionsFile, pick);
    match Revisited(qs, pick, ask)
    case None =>
    case Some(v) =>
      TagsRoundTrip(ask(SuggestTags(v.question, v.answer)));
  }

  /**
   * `reflect` changes two files, the questions file and the dated reflection, and the
   * reflection holds the document for the revisited question, the kept summary and the new
   * questions.
   */
  lemma ReflectTouchesTwoFiles(files: map<string, string>, questionsFile: string, reflectionsDir: string,
                               ask: Prompt -> string, pick: nat, today: Date, p: string)
    requires ValidDate(today)
    requires p != questionsFile && p != ReflectionPath(reflectionsDir, today)
    ensures var after := FilesAfterReflect(files, questionsFile, reflectionsDir, ask, pick, today);
            (p in after <==> p in files) && (p in files ==> after[p] == files[p])
            && questionsFile in after
            && after[ReflectionPath(reflectionsDir, today)]
               == Document(FormatDate(today), Revisited(OpenQuestions(files, questionsFile), pick, ask),
                           ask(RecurringThemes), ExtractQuestions(ask(NewQuestions)))
  {
  }

  /**
   * Reading the questions file after a reflection that revisited a question yields the other
   * open questions, every copy of the revisited one removed and the rest in their order,
   * followed by the new questions (when they and the remaining ones survive a round trip).
   */
  lemma QuestionsAfterRevisit(files: map<string, string>, questionsFile: string, reflectionsDir: string,
                              ask: Prompt -> string, pick: nat, today: Date)
    requires ValidDate(today)
    requires ReflectionPath(reflectionsDir, today) != questionsFile
    requires OpenQuestions(files, questionsFile) != []
    requires var rest := Without(OpenQuestions(files, questionsFile),
                                 SelectQuestion(OpenQuestions(files, questionsFile), pick).value);
             forall q :: q in rest ==> !StartsWith(q, "-")
    requires forall q :: q in ExtractQuestions(ask(NewQuestions)) ==> q != [] && !StartsWith(q, "-")
    ensures var qs := OpenQuestions(files, questionsFile);
            var chosen := SelectQuestion(qs, pick).value;
            var after := FilesAfterReflect(files, questionsFile, reflectionsDir, ask, pick, today);
            ParseQuestions(after[questionsFile]) == Without(qs, chosen) + ExtractQuestions(ask(NewQuestions))
  {
    var qs := OpenQuestions(files, questionsFile);
    var rest := Without(qs, SelectQuestion(qs, pick).value);
    var newQs := ExtractQuestions(ask(NewQuestions));
    ParseQuestionsLoaded(files[questionsFile]);
    WithoutCounts(qs, SelectQuestion(qs, pick).value);
    ExtractQuestionsShape(ask(NewQuestions));
    BulletsAppend(rest, newQs);
    assert [] + Bullets(rest + newQs) == Bullets(rest + newQs);
    RoundTrip([], rest + newQs);
    assert ParseQuestions([]) == [] by {
      assert Lines(Translate([])) == [];
    }
  }

  /**
   * With no open question the file is only extended: its earlier questions are read back first
   * when it ended with a line break, followed by the new questions.
   */
  lemma QuestionsWithoutRevisit(files: map<string, string>, questionsFile: string, reflectionsDir: string,
                                ask: Prompt -> string, pick: nat, today: Date)
    requires ValidDate(today)
    requires ReflectionPath(reflectionsDir, today) != questionsFile
    requires OpenQuestions(files, questionsFile) == []
    requires var c := ContentOr(files, questionsFile); c == [] || c[|c| - 1] == '\n'
    requires forall q :: q in ExtractQuestions(ask(NewQuestions)) ==> q != [] && !StartsWith(q, "-")
    ensures var after := FilesAfterReflect(files, questionsFile, reflectionsDir, ask, pick, today);
            after[questionsFile] == ContentOr(files, questionsFile) + Bullets(ExtractQuestions(ask(NewQuestions)))
            && ParseQuestions(after[questionsFile]) == ExtractQuestions(ask(NewQuestions))
  {
    var c := ContentOr(files, questionsFile);
    ExtractQuestionsShape(ask(NewQuestions));
    RoundTrip(c, ExtractQuestions(ask(NewQuestions)));
    assert ParseQuestions(c) == [] by {
      if questionsFile !in files {
        assert Lines(Translate([])) == [];
      }
    }
  }

  /** The reflection engine over the file system and the insight store. */
  class ReflectionEngine {
    const reflectionsDir: string
    const questionsFile: string
    const fs: FileSystem
    const db: InsightDB

    constructor(reflectionsDir: string, questionsFile: string, fs: FileSystem, db: InsightDB)
      ensures this.reflectionsDir == reflectionsDir && this.questionsFile == questionsFile
      ensures this.fs == fs && this.db == db
    {
      this.reflectionsDir := reflectionsDir;
      this.questionsFile := questionsFile;
      this.fs := fs;
      this.db := db;
    }

    /** The text of the loop `for q in qs: f.write(f"- {q}\n")`. */
    static method BulletText(qs: seq<string>) returns (text: string)
      ensures text == Bullets(qs)
    {
      text := [];
      var i := 0;
      while i < |qs|
        invariant 0 <= i <= |qs|
        invariant text == Bullets(qs[..i])
      {
        BulletsSnoc(qs, i);
        text := text + Bullet(qs[i]);
        i := i + 1;
      }
      assert qs[..|qs|] == qs;
    }

    /** `_save_new_questions`: the file is opened for appending, which creates it if needed. */
    method SaveNewQuestions(qs: seq<string>)
      modifies fs
      ensures fs.files == old(fs.files)[questionsFile := ContentOr(old(fs.files), questionsFile) + Bullets(qs)]
    {
      var text := BulletText(qs);
      fs.Append(questionsFile, text);
    }

    /** Rewrites the questions file to hold exactly `qs`, one bullet each. */
    method RewriteQuestions(qs: seq<string>)
      modifies fs
      ensures fs.files == old(fs.files)[questionsFile := Bullets(qs)]
    {
      var text := BulletText(qs);
      fs.Write(questionsFile, text);
    }

    /** Writes the reflection document to `path`, replacing any earlier one. */
    method WriteReflection(path: string, date: string, rv: Option<Revisit>, summary: string, newQs: seq<string>)
      modifies fs
      ensures fs.files == old(fs.files)[path := Document(date, rv, summary, newQs)]
    {
      var doc := Header(date);
      if rv.Some? {
        var marker := "## Revisited Question\n";
        var text := "**" + rv.value.question + "**\n\n" + rv.value.answer + "\n\n";
        doc := doc + marker;
        doc := doc + text;
        Assoc(Header(date), marker, text);
      } else {
        assert Header(date) + [] == Header(date);
      }
      doc := doc + "## Summary\n";
      doc := doc + (summary + "\n\n");
      doc := doc + "## New Questions\n";
      var bullets := BulletText(newQs);
      doc := doc + bullets;
      fs.Write(path, doc);
    }

    /** `reflect`. */
    method Reflect(ask: Prompt -> string, pick: nat, today: Date, now: Instant) returns (r: Reflected)
      requires ValidDate(today) && ValidInstant(now)
      modifies fs, db
      ensures fs.files == FilesAfterReflect(old(fs.files), questionsFile, reflectionsDir, ask, pick, today)
      ensures db.rows == old(db.rows) + RowsAddedByReflect(old(fs.files), questionsFile, ask, pick, now)
      ensures r == Reflected(ask(RecurringThemes), SelectQuestion(OpenQuestions(old(fs.files), questionsFile), pick),
                             ExtractQuestions(ask(NewQuestions)))
    {
      var summary := ask(RecentLearning);
      var openQs := OpenQuestions(fs.files, questionsFile);
      var chosen := SelectQuestion(openQs, pick);
      var oldAnswer: Option<string> := None;
      if Truthy(chosen) {
        oldAnswer := Some(ask(AnswerQuestion(chosen.value)));
        RewriteQuestions(Without(openQs, chosen.value));
      }
      var revisit: Option<Revisit> := None;
      if Truthy(chosen) && Truthy(oldAnswer) {
        var topic := ask(CategorizeQuestion(chosen.value));
        var tags := ask(SuggestTags(chosen.value, oldAnswer.value));
        db.AddInsight(topic, chosen.value, oldAnswer.value, Some(Split(tags, ',')), now);
        revisit := Some(Revisit(chosen.value, oldAnswer.value));
      }
      summary := ask(AcrossSources);
      summary := ask(RecurringThemes);
      var newQs := ExtractQuestions(ask(NewQuestions));
      SaveNewQuestions(newQs);
      var date := FormatDate(today);
      var outFile := PathJoin(reflectionsDir, "reflection_" + date + ".md");
      WriteReflection(outFile, date, revisit, summary, newQs);
      r := Reflected(summary, chosen, newQs);
    }
  }
}
