# a-second-brain: the bookkeeping around the model calls

This project models, in Dafny, the state that the "second brain" keeps around its language-model calls, and proves what that state goes through. It covers:

- the open-question queue and the dated reflection document (`ReflectionEngine`);
- the compression of old reflections into one summary and the archiving of the files (`MemoryCompressor`);
- the self-evaluation score log and its per-metric averages (`SelfEvaluator`);
- the insight table (`InsightDB`);
- the declared workflow graph and its routing rule (`automation_graph`);
- the word-adjacency knowledge graph (`KnowledgeGraph`);
- the git-log line parser (`GitAdapter.fetch_entries`);
- the research loop (`ResearchAgent`).

Modelling choices:

- **Files.** The file system is a `FileSystem` object holding a `map<string, string>` from path to content. `open(..., "w")`, `open(..., "a")` and `os.rename` update that map in place. Reading in text mode applies universal-newline translation (`Text.Translate`), and iterating over a file yields its lines with their terminators (`Text.Lines`).
- **The insight table.** It is an `InsightDB` object holding a sequence of rows. `add_insight` appends one row.
- **Directory listings.** A `glob` or `os.listdir` result is a parameter (`listing`). The requirement `Files.Enumerates` ties it to the files that match the pattern: each matching file once, in any order.
- **Outside inputs.**
  - Each language-model call is a function parameter `ask: Prompt -> string` (or `invoke`). `Prompt` names the call site.
  - `datetime.now()` and `date.today()` are `Instant` and `Date` parameters.
  - `random.choice` is an index `pick`.
  - The web search outcome is a `Search` value.
  - The output of `git log` is a string.
- **Module layout.** Each core file becomes one module:
  - `Reflection` (reflection.dfy), `Compression` (compression.dfy), `Evaluation` (evaluation.dfy);
  - `Insights` (insights.dfy), `Workflow` (workflow.dfy), `KnowledgeGraph` (knowledge_graph.dfy);
  - `GitSource` (git_source.dfy), `Research` (research.dfy).

  Python's string, slicing, date and ordering semantics live in `Text`, `Dates` and `Lex`. The file map lives in `Files`, the prompts in `Prompts`, and `Option`/`Result` in `Wrappers`.
- **Proof structure.** Every imperative method is proved against a specification function:
  - `Reflect` against `FilesAfterReflect` and `RowsAddedByReflect`;
  - `CompressOldReflections` against `Compress`;
  - `EvaluateRecentReflections` against `Evaluations` and `Logged`;
  - `Build` against `Built`;
  - `FetchEntries` against `Entries`;
  - `RunAutonomousResearch` against `Answers` and `RoundRows`.

  The promised properties are then lemmas about those functions.

## Model

| member | source | states |
|---|---|---|
| Reflection.ParseQuestionsLoaded | asb/brain/reflection.py:27-29 | every loaded question is non-empty, has no surrounding whitespace and holds no line break |
| Reflection.ReflectionEngine.SaveNewQuestions | asb/brain/reflection.py:31-34 | the questions file becomes its old content (empty if absent) followed by one `- q\n` line per question |
| Reflection.RoundTrip | asb/brain/reflection.py:24-34 | after appending well-formed questions to a file ending in a line break, loading returns the old questions in order followed by the new ones |
| Reflection.SavingKeepsDuplicates | asb/brain/reflection.py:31-34 | saving a question already present raises its number of copies on reload by exactly one |
| Reflection.ParseBullets | asb/brain/reflection.py:27-34 | cleaning the lines of the bullets written for well-formed questions gives those questions back |
| Reflection.LeadingDashLost | asb/brain/reflection.py:28 | a question starting with `-` loses that dash on reload |
| Reflection.LastLineMerges | asb/brain/reflection.py:28-34 | an unterminated last line merges with the next appended bullet into one question |
| Reflection.TrailingDashDependsOnBreak | asb/brain/reflection.py:28 | `strip("- ")` keeps a trailing dash on a line that still ends in `\n` and removes it on an unterminated line |
| Reflection.CleanChars | asb/brain/reflection.py:28 | cleaning only removes characters from the ends, so a line with its break only at the end cleans to text with no break |
| Reflection.SelectQuestion | asb/brain/reflection.py:36-37 | `None` exactly when the list is empty, otherwise an element of the list |
| Reflection.SelectAny | asb/brain/reflection.py:37 | every element of the list can be the one chosen |
| Reflection.WithoutCounts | asb/brain/reflection.py:57 | the chosen question is gone and every other question keeps its number of copies |
| Reflection.ReflectionEngine.RewriteQuestions | asb/brain/reflection.py:57-60 | the questions file becomes exactly the bullets of the remaining questions |
| Reflection.QuestionsAfterRevisit | asb/brain/reflection.py:48-60 | after a revisit and the saving of new questions, the file loads as the old questions without every copy of the chosen one, in order, followed by the new questions |
| Reflection.QuestionsWithoutRevisit | asb/brain/reflection.py:48-60 | with no open question, the file keeps its content and gains only the new bullets |
| Reflection.RevisitGuard | asb/brain/reflection.py:49-52 | a question is revisited exactly when the open-question list is non-empty |
| Reflection.ReflectInsight | asb/brain/reflection.py:62-70 | at most one insight; one exactly when a question was chosen and its answer is non-empty; it holds the chosen question, the topic the model gives for it, its answer and the tag reply unchanged |
| Insights.TagsRoundTrip | asb/brain/reflection.py:70 | splitting a tag reply at commas and joining with commas, as `add_insight` does, gives the reply back |
| Reflection.ExtractQuestionsShape | asb/brain/reflection.py:86-87 | every extracted question is trimmed and holds no line break |
| Reflection.DashLineIsEmptyQuestion | asb/brain/reflection.py:86-87 | a reply line of dashes becomes an empty question, since extraction does not drop empty results |
| Reflection.DocumentLayout | asb/brain/reflection.py:94-103 | the document starts with the dated header and ends with `## New Questions` and one bullet per new question |
| Reflection.SectionMarker | asb/brain/reflection.py:96-99 | the `## Revisited Question` section follows the header exactly when a question was answered |
| Reflection.ReflectionEngine.WriteReflection | asb/brain/reflection.py:94-103 | the reflection file is written with exactly the rendered document |
| Reflection.ReflectTouchesTwoFiles | asb/brain/reflection.py:40-106 | `reflect` changes only the questions file and the dated reflection, and the reflection holds the document for the revisit, the kept summary and the new questions |
| Reflection.ReflectionEngine.Reflect | asb/brain/reflection.py:40-106 | the files and insight rows after `reflect` are those of the specification functions, and the result holds the summary, the chosen question and the new questions |
| Compression.DateKeyOfReflection | asb/brain/memory_compressor.py:21-23 | the key of `reflection_{date}.md` is its date text, which parses back to that date |
| Compression.OlderThanTimeline | asb/brain/memory_compressor.py:18-27 | a file is old exactly when its date at midnight is strictly before `now - days` on the microsecond timeline |
| Compression.SelectedIff | asb/brain/memory_compressor.py:19-27 | a path is selected exactly when it is listed, its key parses as a date, and that date is old |
| Compression.SelectedDistinct | asb/brain/memory_compressor.py:19-27 | the selected paths are distinct |
| Compression.SelectedExist | asb/brain/memory_compressor.py:20-27 | every selected path is an existing file |
| Compression.MemoryCompressor.SelectOld | asb/brain/memory_compressor.py:19-27 | the loop selects exactly the files of `Selected`, in listing order |
| Compression.GatheredAppend | asb/brain/memory_compressor.py:33-36 | the gathered content of two runs of files is the concatenation of each run's content |
| Compression.MemoryCompressor.Gather | asb/brain/memory_compressor.py:33-36 | the content is each file's text followed by a line break, in order |
| Compression.NothingOldNothingDone | asb/brain/memory_compressor.py:29-31 | with no old file, no file changes, no insight is stored, and a normal return is `None` |
| Compression.OpenFailureChangesNothing | asb/brain/memory_compressor.py:44-56 | when `open(out_file, "w")` raises, no file changes and no insight is stored |
| Compression.WriteFailureArchivesNothing | asb/brain/memory_compressor.py:44-56 | when the write raises after the truncating open, no insight is stored and nothing is archived; the summary file holds at most the characters written before the error, a prefix of the summary, and every other file is unchanged |
| Compression.SuccessWritesAndStores | asb/brain/memory_compressor.py:43-57 | a successful run had old files; it returns the summary path, writes the summary there and then archives exactly the selected files, and stores exactly one `long_term_summary` insight holding that summary |
| Compression.InsertFailureArchivesNothing | asb/brain/memory_compressor.py:44-56 | a failing insert stores nothing and archives nothing: only the summary file may be new, and every other file keeps its content |
| Compression.SummaryTags | asb/brain/memory_compressor.py:53 | the stored tags are `compressed,summary` |
| Compression.ArchivePathOf | asb/brain/memory_compressor.py:56 | renaming puts `archived_` before the file name in the reflections directory |
| Compression.ArchivedLeavesGlob | asb/brain/memory_compressor.py:56 | an archived reflection no longer matches `reflection_*.md` |
| Compression.RenameAllKeeps | asb/brain/memory_compressor.py:55-56 | a file that is not archived stays in place |
| Compression.RenameAllGlob | asb/brain/memory_compressor.py:55-56 | every reflection left after archiving was there before and was not among the archived files |
| Compression.RerunFindsNothing | asb/brain/memory_compressor.py:16-57 | an immediate rerun with the same clock selects nothing |
| Compression.DefaultOutFileOutsideGlob | asb/brain/memory_compressor.py:43 | with the default directories the summary file never matches the reflection pattern |
| Compression.MemoryCompressor.ArchiveAll | asb/brain/memory_compressor.py:55-56 | each selected file is renamed to its archive path, in order |
| Compression.MemoryCompressor.CompressOldReflections | asb/brain/memory_compressor.py:16-57 | the result, the files and the new insight rows are exactly those of `Compress`, including the overflow, open-failure, partial-write and insert-failure paths |
| Evaluation.RecentWindow | asb/brain/self_evaluator.py:25 | `files[-days:]` keeps the last `days` files, all files when `days` is 0, and drops `-days` from the front when negative |
| Evaluation.RecentAreFiles | asb/brain/self_evaluator.py:20-25 | every file in the window is an existing reflection |
| Evaluation.EvaluationsReadOriginals | asb/brain/self_evaluator.py:27-45 | when the score log is not among them, the k-th result is the k-th file's base name and the reply to its text |
| Evaluation.LoggedSnoc | asb/brain/self_evaluator.py:46-47 | logging one more result appends exactly its line to the score log |
| Evaluation.SelfEvaluator.EvaluateAll | asb/brain/self_evaluator.py:27-47 | the results and the score log after the loop are `Evaluations` and `Logged` |
| Evaluation.SelfEvaluator.EvaluateRecentReflections | asb/brain/self_evaluator.py:19-50 | no listing gives `None` and no change; otherwise the window of the sorted listing is evaluated in order and one line per file is logged |
| Evaluation.LogLineStrip | asb/brain/self_evaluator.py:59 | a logged line strips back to `timestamp,name,reply` |
| Evaluation.LoggedReplyParts | asb/brain/self_evaluator.py:59 | a logged line splits into the timestamp, the name and the reply's fields |
| Evaluation.LoggedReplyFields | asb/brain/self_evaluator.py:60-65 | a logged line is read for scores exactly when the reply has six or more fields, and its scores are the reply's first four |
| Evaluation.LogOfOneLine | asb/brain/self_evaluator.py:58 | a logged line with no break in name or reply is read back as exactly one line |
| Evaluation.ParseIntToString | asb/brain/self_evaluator.py:62-65 | `float()` reads back a whole number as `str` writes it |
| Evaluation.ParseDecimal | asb/brain/self_evaluator.py:62-65 | `float()` reads `a.ddd` as `a + ddd / 10^w` |
| Evaluation.LeadingValueAt | asb/brain/self_evaluator.py:61-67 | each value appended before a failure is the parse of its field |
| Evaluation.LeadingValuesStop | asb/brain/self_evaluator.py:61-67 | the appends stop at the first field that does not parse |
| Evaluation.TallyAsWritten | asb/brain/self_evaluator.py:56-67 | as written, the lists only get shorter from clarity to redundancy |
| Evaluation.HalfScoredReplyRaises | asb/brain/self_evaluator.py:56-74 | as written, a logged reply whose first score parses and second does not makes `summarize_scores` raise `StatisticsError`; the corrected tally leaves nothing to average |
| Evaluation.Tally | asb/brain/self_evaluator.py:56-67 | corrected: the four lists always have the same length |
| Evaluation.SumBounds | asb/brain/self_evaluator.py:71-74 | the sum of values in a range lies between length times the bounds |
| Evaluation.MeanBounds | asb/brain/self_evaluator.py:71-74 | a mean of values in a range lies in that range |
| Evaluation.TallyInRange | asb/brain/self_evaluator.py:56-67 | scores in a range on every counted line keep every list in that range |
| Evaluation.AveragesInRange | asb/brain/self_evaluator.py:52-74 | the corrected report's four averages lie in the range of the scores logged |
| Evaluation.SelfEvaluator.SummarizeScores | asb/brain/self_evaluator.py:52-74 | the loop computes the corrected `Summary`: no data yet, nothing to average, or the four means |
| Insights.InsightDB.AddInsight | asb/brain/insight_db.py:28-34 | exactly one row is appended, with the formatted time and the comma-joined tags (empty for none), and nothing is rejected |
| Dates.DateTimeOrder | asb/brain/insight_db.py:33 | comparing two stored timestamps by code point is comparing the instants, to the second |
| Insights.LikeContains | asb/brain/insight_db.py:38-42 | `LIKE '%t%'` matches exactly the topics containing `t`, ignoring ASCII case, when `t` holds no wildcard |
| Insights.UnderscoreInTopicIsWildcard | asb/brain/insight_db.py:42 | an `_` in the query matches any character |
| Insights.InsightDB.QueryByTopic | asb/brain/insight_db.py:36-44 | the hits are exactly the matching rows as `(date, question, answer, tags)`, newest date first |
| Insights.MatchingFromRows | asb/brain/insight_db.py:38-42 | every hit comes from a row whose topic matches |
| Insights.MatchingHasRows | asb/brain/insight_db.py:38-42 | every row whose topic matches gives a hit |
| Insights.NewestFirst | asb/brain/insight_db.py:41-42 | a hit listed before another was not stored earlier |
| Insights.InsightDB.ListTopics | asb/brain/insight_db.py:46-49 | each topic present in some row is listed exactly once, and nothing else |
| Workflow.StateGraph.AddConditionalEdges | asb/brain/automation_graph.py:57-61 | one route per entry of the path map is added, in order, and nothing else changes |
| Workflow.BuildWorkflow | asb/brain/automation_graph.py:42-61 | the statements declare exactly the `Workflow` table |
| Workflow.StepTable | asb/brain/automation_graph.py:49-61 | the successors of every node, exactly |
| Workflow.ReflectFansOut | asb/brain/automation_graph.py:49-56 | the entry is `reflect`, whose successors are exactly `evaluate` and `evaluate_and_decide` |
| Workflow.RouterTargets | asb/brain/automation_graph.py:57-61 | the router leads only to `research` or `compress` |
| Workflow.OnlyEndIsFinal | asb/brain/automation_graph.py:42-61 | every declared node has a successor, and `END` has none |
| Workflow.PathDescends | asb/brain/automation_graph.py:49-61 | along a walk the height falls by at least one per transition |
| Workflow.Acyclic | asb/brain/automation_graph.py:49-61 | no walk with a transition ends where it started |
| Workflow.WalksReachEnd | asb/brain/automation_graph.py:49-61 | a walk from the entry has at most five nodes, and one not at `END` can go on |
| Workflow.LongestWalk | asb/brain/automation_graph.py:49-53 | `reflect`, `evaluate`, `research`, `compress`, `END` is a walk |
| Workflow.StagesOfNodes | asb/brain/automation_graph.py:9-46 | the four stage nodes are the declared nodes other than the router, with distinct labels |
| Workflow.StageArguments | asb/brain/automation_graph.py:18-30 | evaluation over 7 days, research of 2 questions, compression with a 14-day cutoff |
| Workflow.Decide | asb/brain/automation_graph.py:37-39 | `research` exactly when the average is below 6, otherwise `compress` |
| Workflow.DecisionRoutes | asb/brain/automation_graph.py:57-61 | the decision names a declared route whose target is the same node |
| Workflow.DecideMonotone | asb/brain/automation_graph.py:37-39 | a higher average never sends back to research |
| KnowledgeGraph.MatchIsWholeRun | asb/brain/graph.py:15 | a match is a whole run of five or more ASCII letters with no word character on either side |
| KnowledgeGraph.RunIsMatched | asb/brain/graph.py:15 | a run of five or more letters between non-word characters is matched |
| KnowledgeGraph.AttachedRunIgnored | asb/brain/graph.py:15 | a run of letters followed by a digit, an underscore or another word character gives no match |
| KnowledgeGraph.FindAllTokens | asb/brain/graph.py:15 | every word found is five or more ASCII letters |
| KnowledgeGraph.InsideMatchNone | asb/brain/graph.py:15 | no match starts strictly inside another match |
| KnowledgeGraph.FindAllComplete | asb/brain/graph.py:15 | the scan from any position finds every match at or after it |
| KnowledgeGraph.FindAllSound | asb/brain/graph.py:15 | every word the scan finds is the match at some position |
| KnowledgeGraph.WordsAreFreeRuns | asb/brain/graph.py:15 | a word is found exactly when it is a run of five or more ASCII letters with no word character just before or after it |
| KnowledgeGraph.LinkedEdge | asb/brain/graph.py:17 | `add_edge` adds the edge in both directions and nothing else, and adds both nodes |
| KnowledgeGraph.LinkedDistinct | asb/brain/graph.py:17 | neighbour lists stay free of duplicates |
| KnowledgeGraph.AddPairsEdge | asb/brain/graph.py:16-17 | the edges after one file are the earlier ones and its consecutive lowercased pairs, both ways |
| KnowledgeGraph.AddPairsNode | asb/brain/graph.py:16-17 | the nodes after one file are the earlier ones and its words when it has two or more |
| KnowledgeGraph.KnowledgeGraph.AddWordPairs | asb/brain/graph.py:16-17 | the loop adds exactly the pairs of `AddPairs` |
| KnowledgeGraph.BuiltEdge | asb/brain/graph.py:11-17 | an edge exists exactly when it was there or two words are consecutive in one note, never across notes |
| KnowledgeGraph.BuiltNode | asb/brain/graph.py:11-17 | a node exists exactly when it was there or is a word of a note with two or more words |
| KnowledgeGraph.IgnoredFile | asb/brain/graph.py:13-17 | a file that is not `.md` or `.txt`, or that has fewer than two words, adds nothing |
| KnowledgeGraph.BuiltSymmetric | asb/brain/graph.py:17 | the graph stays undirected |
| KnowledgeGraph.BuiltDistinct | asb/brain/graph.py:17 | no neighbour is listed twice |
| KnowledgeGraph.BuiltNodeName | asb/brain/graph.py:15-17 | every node of a fresh graph is a lowercase string of five or more letters |
| KnowledgeGraph.BuiltNodeLinked | asb/brain/graph.py:17 | every node has a neighbour |
| KnowledgeGraph.RepeatedWordSelfLoop | asb/brain/graph.py:17 | a word repeated consecutively becomes its own neighbour |
| KnowledgeGraph.KnowledgeGraph.Build | asb/brain/graph.py:11-17 | the graph after `build` is `Built` over the listed notes |
| KnowledgeGraph.NeighboursIgnoreCase | asb/brain/graph.py:22-26 | lookup ignores ASCII case and returns exactly the neighbours, or `[]` for an unknown concept |
| KnowledgeGraph.RelatedSymmetric | asb/brain/graph.py:17-26 | `b` is related to `a` exactly when `b` is lowercase and `a` is related to `b` |
| KnowledgeGraph.KnowledgeGraph.Related | asb/brain/graph.py:21-26 | the result is the neighbour list of the lowercased concept |
| GitSource.ParseLine | asb/brain/sources/git_adapter.py:19-27 | a line gives an entry exactly when it has at least four pipe-separated fields, and every entry's source is `git` |
| GitSource.EntriesAppend | asb/brain/sources/git_adapter.py:18-27 | entries keep the order of the lines |
| GitSource.EntriesFromLines | asb/brain/sources/git_adapter.py:18-27 | every entry comes from one line and has source `git` |
| GitSource.NoOutputNoEntries | asb/brain/sources/git_adapter.py:18 | empty output gives no entries |
| GitSource.FetchEntries | asb/brain/sources/git_adapter.py:17-28 | the loop returns `Entries` of the output's lines |
| GitSource.ParseFormat | asb/brain/sources/git_adapter.py:13-25 | a line printed with the format `%h`, `%s`, `%an`, `%ad` joined by pipes parses back to those four fields |
| GitSource.PipeInSubjectShifts | asb/brain/sources/git_adapter.py:19-25 | a pipe character in the subject shifts the author and date fields |
| GitSource.FetchPrinted | asb/brain/sources/git_adapter.py:13-28 | the whole printed log parses back to one entry per commit, in order |
| Research.SnippetsFirstFive | asb/brain/research_agent.py:50 | results past the fifth are not read |
| Research.PromptBranches | asb/brain/research_agent.py:44-60 | no key gives the explain prompt; a failed search gives the short-summary prompt; otherwise the snippets are summarised, or "No results found" when they are blank |
| Research.ResearchAgent.ResearchQuestion | asb/brain/research_agent.py:39-73 | the answer is the reply to the chosen prompt, and exactly one insight with that question and answer is appended |
| Research.ResearchTags | asb/brain/research_agent.py:63 | the stored topic is `research` and the tags are `research,auto` |
| Research.ReflectionDropsEmpty | asb/brain/research_agent.py:83 | the reflection engine's questions are the research questions without the empty ones, and every non-empty one is among them |
| Research.DashLineResearched | asb/brain/research_agent.py:83 | a line of dashes is researched as an empty question, while the reflection engine drops it |
| Research.RoundSize | asb/brain/research_agent.py:86 | `questions[:max_questions]` keeps the first `max_questions` questions, or drops from the end when negative |
| Research.RoundInsights | asb/brain/research_agent.py:86-88 | the i-th insight of a round holds the i-th question and the reply to its prompt |
| Research.PreviewShape | asb/brain/research_agent.py:88 | a preview is at most 200 characters of the answer followed by `...` |
| Research.ResearchAgent.ResearchAll | asb/brain/research_agent.py:85-88 | returns the listing of the questions with their answers' previews, and stores the round's rows after the existing ones |
| Research.ListingAt | asb/brain/research_agent.py:85-88 | the listing has one entry per question, in order, pairing each with the preview of its answer |
| Research.ResearchAgent.RunAutonomousResearch | asb/brain/research_agent.py:75-93 | no questions file means no change at all; otherwise the first questions are researched in order, nothing is removed from the file, and exactly one reflection follows |

## Left out

- The language model, the clock and `random.choice` are inputs. A model call that raises is not modelled.
- `os.makedirs` and directory existence are left out.
- The file system is a map from path to content. `os.rename` only succeeds; its error cases are left out.
- Printing and logging are left out.
- Every file write other than the summary file of `compress_old_reflections` is assumed to succeed. This covers the questions-file append and rewrite and the reflection file in `reflect`, and the score-log append in `evaluate_recent_reflections`. A failure part-way through, which would leave a truncated or partial file, is not modelled.
- Reflection.ReflectionEngine.Reflect: the `evaluator.summarize_scores()` call at the start of `reflect` (reflection.py:42-43) is left out. With the corrected summary (see Findings) it only prints. As written, a half-scored score log makes `statistics.mean([])` raise `StatisticsError`, so `reflect` stops before any model call or write. The model does not capture that path. The same error would also escape Research.ResearchAgent.RunAutonomousResearch after the research rows are stored.
- Research.ResearchAgent.RunAutonomousResearch: returns the list of questions and previews it builds, where `run_autonomous_research` returns `None` on both paths and only prints the list's length.
- The language model is a total function from prompt to reply. Two calls with the same prompt text therefore get the same reply, for example duplicate questions in one research round or two reflections with the same text in one evaluation. A real model may answer them differently. No property proved here depends on this.
- `float()` accepts only an optional sign, digits and one point. Exponents, `inf`, `nan` and underscores are left out.
- Means are exact reals; the `:.2f` formatting is left out.
- SQLite is left out: the connection, commits and the `id` column. `LIKE` is modelled for `%`, `_` and ASCII case folding only.
- LangGraph's runtime is not modelled: `compile()`, the execution order of the fan-out from `reflect`, and the state merging. Nor is the fact that `evaluate_and_decide`, used as a node, returns a string where the runtime expects a state update.
- Workflow.Decide: the average is an input. automation_graph.py:36 leaves `avg_score` as `...`, and as written `... < 6` raises `TypeError`.
- KnowledgeGraph.MatchAt: `\b` and `\w` count ASCII letters, digits, `_`, and the letters and numerals up to U+017F as word characters. Python counts every Unicode letter and digit.
- Text.Lower: lowers ASCII letters only. Python's `str.lower` also lowers other letters, for example U+212A KELVIN SIGN to `k`. So KnowledgeGraph.KnowledgeGraph.Related on a concept holding such a letter returns `[]` where the source looks up the lower-cased word.
- Dates.ParseDate: `%Y` and `%d` accept ASCII digits only (see Dates.DayAt). `strptime` matches both with Unicode `\d`, so a name such as `reflection_٢٠٢٤-01-01.md` is selected by the source and skipped by the model.
- Evaluation.ParseNumber: accepts ASCII digits only (Evaluation.AllDigits). `float()` also accepts other Unicode decimal digits, for example `float("٧") == 7.0`.
- KnowledgeGraph.KnowledgeGraph.Build: every listed `.md` or `.txt` name is required to be a readable file. A directory with such a name would make `open` raise.
- Chroma and `Memory` are left out. This includes the semantic-memory insert in `research_question` and its `hash()` ids, which are not stable across processes.
- The Ollama health check in the `ResearchAgent` constructor is left out.
- The HTTP request and the URL construction are left out. The whole search, including `response.json()`, is one `Search` input, either failed or its results.
- `os.chdir`, the `git log` subprocess and the `--since` computation are left out. The command's output is an input.
- The scheduler, the command-line entry point and the dashboard are not part of this model. Neither are the agent, cognition, memory, embeddings, ingestion, file and Notion adapters, or the logger.

## Findings

| source | as written | input that shows it | evidently intended | confidence | as-written member | corrected member |
|---|---|---|---|---|---|---|
| asb/brain/self_evaluator.py:61-74 | each score is appended as soon as it parses, so a `ValueError` on a later field leaves the lists of different lengths; `statistics.mean` of an empty list then raises `StatisticsError` | a score log whose only line is `2025-01-01 10:00:00,reflection_2025-01-01.md,7,n/a,5,5,topics,tips` | a line counts only when all four scores parse, so the four lists stay equal in length and every average is defined | not executed | Evaluation.HalfScoredReplyRaises | Evaluation.SelfEvaluator.SummarizeScores |
