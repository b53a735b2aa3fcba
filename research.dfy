/**
 * The research agent: each open question is searched on the web when a search key is configured,
 * the findings are summarised by the language model, and the answer is stored as an insight; after
 * a round of questions one reflection runs.
 */
module Research {
  import opened Wrappers
  import opened Text
  import opened Dates
  import opened Files
  import opened Prompts
  import opened Insights
  import opened Reflection

  const OpenQuestionsFile := "./data/questions/open_questions.md"

  /** The outcome of the web search: an exception, or the `organic_results`, each with or without a snippet. */
  datatype Search = SearchFailed | Results(organic: seq<Option<string>>)

  /** `r.get("snippet", "")`. */
  function SnippetOf(r: Option<string>): string {
    if r.Some? then r.value else ""
  }

  function SnippetList(rs: seq<Option<string>>): (r: seq<string>)
    ensures |r| == |rs|
    decreases |rs|
  {
    if rs == [] then [] else [SnippetOf(rs[0])] + SnippetList(rs[1..])
  }

  /** `" ".join(...)` over the snippets of the first five results. */
  function Snippets(rs: seq<Option<string>>): string {
    Join(" ", SnippetList(SliceTo(rs, 5)))
  }

  /** Only the first five results are read. */
  lemma SnippetsFirstFive(rs: seq<Option<string>>, more: seq<Option<string>>)
    requires |rs| >= 5
    ensures Snippets(rs + more) == Snippets(rs)
  {
    assert (rs + more)[..5] == rs[..5];
  }

  /** The prompt `research_question` sends, given the search key (empty when unset) and the search outcome. */
  function ResearchPrompt(question: string, key: string, search: Search): Prompt {
    if key == [] then ExplainConcepts(question)
    else match search
      case SearchFailed => ShortSummary(question)
      case Results(rs) =>
        if Strip(Snippets(rs)) != [] then SummarizeFindings(Snippets(rs))
        else SummarizeFindings("No results found for " + question)
  }

  /** The four branches, each exactly under its condition. */
  lemma PromptBranches(question: string, key: string, search: Search)
    ensures ResearchPrompt(question, key, search) == ExplainConcepts(question) <==> key == []
    ensures ResearchPrompt(question, key, search) == ShortSummary(question) <==> key != [] && search.SearchFailed?
    ensures key != [] && search.Results? && Strip(Snippets(search.organic)) != [] ==>
      ResearchPrompt(question, key, search) == SummarizeFindings(Snippets(search.organic))
    ensures key != [] && search.Results? && Strip(Snippets(search.organic)) == [] ==>
      ResearchPrompt(question, key, search) == SummarizeFindings("No results found for " + question)
  {
  }

  /** The insight stored for one researched question. */
  function ResearchRow(question: string, answer: string, now: Instant): Row
    requires ValidInstant(now)
  {
    Row(FormatDateTime(now), "research", question, answer, TagsText(Some(["research", "auto"])))
  }

  lemma ResearchTags(question: string, answer: string, now: Instant)
    requires ValidInstant(now)
    ensures ResearchRow(question, answer, now).tags == "research,auto"
    ensures ResearchRow(question, answer, now).topic == "research"
  {
    assert ["research", "auto"][1..] == ["auto"];
  }

  /** `[q.strip("- ").strip() for q in f if q.strip()]`: unlike the reflection engine, empty results are kept. */
  function ResearchQuestions(content: string): seq<string> {
    CleanNonBlank(Lines(Translate(content)))
  }

  /** The reflection engine drops exactly the questions that clean to nothing. */
  lemma ReflectionDropsEmpty(content: string)
    ensures ParseQuestions(content) == Without(ResearchQuestions(content), [])
    ensures forall q :: q in ResearchQuestions(content) && q != [] ==> q in ParseQuestions(content)
  {
    var qs := ResearchQuestions(content);
    WithoutCounts(qs, []);
    forall q | q in qs && q != []
      ensures q in ParseQuestions(content)
    {
      assert multiset(qs)[q] > 0;
    }
  }

  /** A line of dashes is a question here: it cleans to the empty string but is not blank. */
  lemma DashLineResearched()
    ensures ResearchQuestions("---\n") == [""]
    ensures ParseQuestions("---\n") == []
  {
    TranslateNoReturn("---\n");
    LinesOfOneLine("---\n");
    assert DropWhile("---\n", IsSpace) == "---\n";
    assert DropWhileEnd("---\n", IsSpace) == "---";
    assert DropWhile("---\n", IsDashOrSpace) == "\n";
    assert DropWhileEnd("\n", IsDashOrSpace) == "\n";
    assert DropWhile("\n", IsSpace) == "";
    assert CleanNonBlank(["---\n"]) == [Clean("---\n")] + CleanNonBlank([]);
  }

  /** The questions a round researches: `questions[:max_questions]`. */
  lemma RoundSize(qs: seq<string>, maxQuestions: int)
    ensures maxQuestions >= 0 ==> |SliceTo(qs, maxQuestions)| == if maxQuestions < |qs| then maxQuestions else |qs|
    ensures maxQuestions < 0 ==> SliceTo(qs, maxQuestions) == qs[..if |qs| + maxQuestions < 0 then 0 else |qs| + maxQuestions]
    ensures forall i :: 0 <= i < |SliceTo(qs, maxQuestions)| ==> SliceTo(qs, maxQuestions)[i] == qs[i]
  {
  }

  /** The answers of a round, question `i` searched with outcome `search(i)`. */
  function Answers(qs: seq<string>, key: string, search: nat -> Search, invoke: Prompt -> string): (r: seq<string>)
    ensures |r| == |qs|
    decreases |qs|
  {
    if qs == [] then []
    else
      var n := |qs| - 1;
      Answers(qs[..n], key, search, invoke) + [invoke(ResearchPrompt(qs[n], key, search(n)))]
  }

  /** The rows a round stores, question `i` at time `clock(i)`. */
  function RoundRows(qs: seq<string>, answers: seq<string>, clock: nat -> Instant): (r: seq<Row>)
    requires |answers| == |qs|
    requires forall i: nat :: ValidInstant(clock(i))
    ensures |r| == |qs|
    decreases |qs|
  {
    if qs == [] then []
    else
      var n := |qs| - 1;
      RoundRows(qs[..n], answers[..n], clock) + [ResearchRow(qs[n], answers[n], clock(n))]
  }

  /** One more question: its answer and its row come after those of the questions before it. */
  lemma RoundStep(qs: seq<string>, key: string, search: nat -> Search, invoke: Prompt -> string,
                  clock: nat -> Instant, i: nat, answers: seq<string>, ans: string)
    requires i < |qs| && forall j: nat :: ValidInstant(clock(j))
    requires answers == Answers(qs[..i], key, search, invoke)
    requires ans == invoke(ResearchPrompt(qs[i], key, search(i)))
    ensures answers + [ans] == Answers(qs[..i + 1], key, search, invoke)
    ensures RoundRows(qs[..i + 1], answers + [ans], clock)
         == RoundRows(qs[..i], answers, clock) + [ResearchRow(qs[i], ans, clock(i))]
    ensures Listing(qs[..i + 1], answers + [ans]) == Listing(qs[..i], answers) + [(qs[i], Preview(ans))]
  {
    assert qs[..i + 1][..i] == qs[..i];
    assert (answers + [ans])[..i] == answers;
  }

  /** Exactly one insight per researched question, in question order, holding its question and answer. */
  lemma {:induction false} RoundRowsAt(qs: seq<string>, answers: seq<string>, clock: nat -> Instant, i: int)
    requires |answers| == |qs| && forall j: nat :: ValidInstant(clock(j))
    requires 0 <= i < |qs|
    ensures RoundRows(qs, answers, clock)[i] == ResearchRow(qs[i], answers[i], clock(i))
    decreases |qs|
  {
    var n := |qs| - 1;
    if i < n {
      RoundRowsAt(qs[..n], answers[..n], clock, i);
    }
  }

  /** The answer of question `i` is the model's reply to that question's prompt. */
  lemma {:induction false} AnswerAt(qs: seq<string>, key: string, search: nat -> Search, invoke: Prompt -> string, i: int)
    requires 0 <= i < |qs|
    ensures Answers(qs, key, search, invoke)[i] == invoke(ResearchPrompt(qs[i], key, search(i)))
    decreases |qs|
  {
    var n := |qs| - 1;
    if i < n {
      AnswerAt(qs[..n], key, search, invoke, i);
    }
  }

  /** The `i`-th insight of a round holds the `i`-th question and the model's reply to its prompt. */
  lemma RoundInsights(qs: seq<string>, key: string, search: nat -> Search, invoke: Prompt -> string,
                      clock: nat -> Instant, i: int)
    requires forall j: nat :: ValidInstant(clock(j))
    requires 0 <= i < |qs|
    ensures var row := RoundRows(qs, Answers(qs, key, search, invoke), clock)[i];
      row.question == qs[i] && row.answer == invoke(ResearchPrompt(qs[i], key, search(i)))
      && row.topic == "research" && row.tags == "research,auto" && row.date == FormatDateTime(clock(i))
  {
    var answers := Answers(qs, key, search, invoke);
    RoundRowsAt(qs, answers, clock, i);
    AnswerAt(qs, key, search, invoke, i);
    ResearchTags(qs[i], answers[i], clock(i));
  }

  /** A preview keeps at most the first 200 characters of the answer, then `...`. */
  lemma PreviewShape(answer: string)
    ensures |Preview(answer)| == (if |answer| < 200 then |answer| else 200) + 3
    ensures Preview(answer)[..|Preview(answer)| - 3] <= answer
  {
  }

  /** `ans[:200] + "..."`. */
  function Preview(answer: string): string {
    SliceTo(answer, 200) + "..."
  }

  /** The list the round returns: each question with the preview of its answer. */
  function Listing(qs: seq<string>, answers: seq<string>): seq<(string, string)>
    requires |answers| == |qs|
    decreases |qs|
  {
    if qs == [] then []
    else
      var n := |qs| - 1;
      Listing(qs[..n], answers[..n]) + [(qs[n], Preview(answers[n]))]
  }

  /** One entry per question, in question order, pairing it with its answer's preview. */
  lemma {:induction false} ListingAt(qs: seq<string>, answers: seq<string>, i: int)
    requires |answers| == |qs|
    ensures |Listing(qs, answers)| == |qs|
    ensures 0 <= i < |qs| ==> Listing(qs, answers)[i] == (qs[i], Preview(answers[i]))
    decreases |qs|
  {
    if qs != [] {
      var n := |qs| - 1;
      ListingAt(qs[..n], answers[..n], i);
    }
  }

  /** The research agent over the file system, the insight store and a reflection engine sharing them. */
  class ResearchAgent {
    const fs: FileSystem
    const db: InsightDB
    const engine: ReflectionEngine

    constructor(fs: FileSystem, db: InsightDB, engine: ReflectionEngine)
      requires engine.fs == fs && engine.db == db
      ensures this.fs == fs && this.db == db && this.engine == engine
      ensures this.engine.fs == fs && this.engine.db == db
    {
      this.fs := fs;
      this.db := db;
      this.engine := engine;
    }

    /** `research_question`: one model call, one stored insight, the answer returned. */
    method ResearchQuestion(question: string, key: string, search: Search, invoke: Prompt -> string, now: Instant)
      returns (results: string)
      requires ValidInstant(now)
      modifies db
      ensures results == invoke(ResearchPrompt(question, key, search))
      ensures db.rows == old(db.rows) + [ResearchRow(question, results, now)]
    {
      if key != [] {
        match search
        case SearchFailed =>
          results := invoke(ShortSummary(question));
        case Results(rs) =>
          var snippets := Snippets(rs);
          if Strip(snippets) != [] {
            results := invoke(SummarizeFindings(snippets));
          } else {
            results := invoke(SummarizeFindings("No results found for " + question));
          }
      } else {
        results := invoke(ExplainConcepts(question));
      }
      db.AddInsight("research", question, results, Some(["research", "auto"]), now);
    }

    /**
     * `run_autonomous_research(max_questions)`: nothing at all without a questions file; otherwise
     * the first questions are researched in order, then one reflection runs. The previews of the
     * answers are returned (the source only prints their number).
     */
    method RunAutonomousResearch(maxQuestions: int, key: string, search: nat -> Search, invoke: Prompt -> string,
                                 clock: nat -> Instant, ask: Prompt -> string, pick: nat, today: Date, now: Instant)
      returns (researched: Option<seq<(string, string)>>)
      requires engine.fs == fs && engine.db == db
      requires forall i: nat :: ValidInstant(clock(i))
      requires ValidDate(today) && ValidInstant(now)
      modifies fs, db
      ensures OpenQuestionsFile !in old(fs.files) ==>
        researched == None && fs.files == old(fs.files) && db.rows == old(db.rows)
      ensures OpenQuestionsFile in old(fs.files) ==>
        var qs := SliceTo(ResearchQuestions(old(fs.files)[OpenQuestionsFile]), maxQuestions);
        var answers := Answers(qs, key, search, invoke);
        && researched == Some(Listing(qs, answers))
        && db.rows == old(db.rows) + RoundRows(qs, answers, clock)
                      + RowsAddedByReflect(old(fs.files), engine.questionsFile, ask, pick, now)
        && fs.files == FilesAfterReflect(old(fs.files), engine.questionsFile, engine.reflectionsDir, ask, pick, today)
    {
      if OpenQuestionsFile !in fs.files {
        return None;
      }
      var questions := CleanNonBlank(Lines(ReadText(fs.files, OpenQuestionsFile)));
      var qs := SliceTo(questions, maxQuestions);
      var list := ResearchAll(qs, key, search, invoke, clock);
      var _ := engine.Reflect(ask, pick, today, now);
      researched := Some(list);
    }

    /** The loop of `run_autonomous_research`: each question researched in order, its preview kept. */
    method ResearchAll(qs: seq<string>, key: string, search: nat -> Search, invoke: Prompt -> string,
                       clock: nat -> Instant)
      returns (list: seq<(string, string)>)
      requires forall i: nat :: ValidInstant(clock(i))
      modifies db
      ensures list == Listing(qs, Answers(qs, key, search, invoke))
      ensures db.rows == old(db.rows) + RoundRows(qs, Answers(qs, key, search, invoke), clock)
    {
      ghost var rows0 := db.rows;
      list := [];
      ghost var answers: seq<string> := [];
      var i := 0;
      while i < |qs|
        invariant 0 <= i <= |qs|
        invariant answers == Answers(qs[..i], key, search, invoke)
        invariant list == Listing(qs[..i], answers)
        invariant db.rows == rows0 + RoundRows(qs[..i], answers, clock)
      {
        var ans := ResearchQuestion(qs[i], key, search(i), invoke, clock(i));
        RoundStep(qs, key, search, invoke, clock, i, answers, ans);
        Assoc(rows0, RoundRows(qs[..i], answers, clock), [ResearchRow(qs[i], ans, clock(i))]);
        answers := answers + [ans];
        list := list + [(qs[i], Preview(ans))];
        i := i + 1;
      }
      assert qs[..|qs|] == qs;
    }
  }
}
