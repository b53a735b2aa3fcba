/**
 * The requests the core sends to language models. The models themselves are not part of this
 * model: every component takes the model as a function from prompt to reply, so a reply is an
 * arbitrary string that depends only on what was asked.
 */
module Prompts {
  import opened Text

  datatype Prompt =
    | RecentLearning                          // first summary request of a reflection
    | AnswerQuestion(question: string)        // answering a revisited open question
    | CategorizeQuestion(question: string)    // topic of a revisited question
    | SuggestTags(question: string, answer: string)
    | AcrossSources                           // second summary request of a reflection
    | RecurringThemes                         // third summary request, the one that is kept
    | NewQuestions                            // follow-up questions of a reflection
    | CompressReflections(count: nat, content: string)
    | EvaluateReflection(text: string)
    | SummarizeFindings(text: string)         // research: summary of search snippets
    | ShortSummary(question: string)          // research: fallback after a failed search
    | ExplainConcepts(question: string)       // research: no search key configured

  const Indent := "\n                "

  /** The exact text sent for each prompt. */
  function Wording(p: Prompt): string {
    match p
    case RecentLearning =>
      "Summarize what I've learned recently and avoid repeating prior reflections with high redundancy scores."
    case AnswerQuestion(q) => "Answer this question based on my knowledge: " + q
    case CategorizeQuestion(q) => "Categorize this question into 1-2 topic keywords: " + q
    case SuggestTags(q, a) => "Suggest 3 short tags for this content: " + q + " " + a
    case AcrossSources =>
      "Reflect on what I have done across all sources (git commits, notes, reflections). "
      + "Identify recurring themes and possible next improvements."
    case RecurringThemes => "Summarize what I've learned recently and identify recurring themes."
    case NewQuestions => "Based on this reflection, list 3 new thoughtful questions to explore next."
    case CompressReflections(n, content) =>
      "Summarize the following " + NatToString(n) + " reflections into key insights, themes, and lessons:\n"
      + content
    case EvaluateReflection(text) =>
      "Evaluate this reflection on:"
      + Indent + "1. Clarity (1\U{2013}10)"
      + Indent + "2. Novelty (1\U{2013}10)"
      + Indent + "3. Actionability (1\U{2013}10)"
      + Indent + "4. Redundancy (1\U{2013}10, lower is better)"
      + Indent + "5. Main topics and improvement suggestions.\n"
      + Indent + "Respond in CSV format: clarity,novelty,actionability,redundancy,topics,suggestions\n"
      + Indent + "Reflection:"
      + Indent + text
    case SummarizeFindings(text) => "Summarize the following information into concise factual insights:\n" + text
    case ShortSummary(q) => "Generate a short factual summary about: " + q
    case ExplainConcepts(q) => "Explain the key concepts behind: " + q
  }
}
