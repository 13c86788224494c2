/** The dictionaries the processor returns, one variant per shape. Every
    value of a shape that the processor always sets to `True` (`languages`,
    `help`) is implied by the variant. */
module Responses {

  datatype Response =
    | LanguageList(languages: seq<(string, string)>, example: string, reference: string)
    | HelpTable(commands: seq<(string, string)>)
    | Suggestion(response: string, suggestion: string)
    | SentimentResult(sentiment: string, score: real)
    | Translation(translatedText: string, language: string)
    | Summary(summary: string)
    | Failure(error: string)

  /** The keys of the dictionary a response stands for. */
  function Keys(r: Response): (k: set<string>)
    ensures "error" in k <==> r.Failure?
    ensures r.Failure? ==> k == {"error"}
  {
    match r
    case LanguageList(_, _, _) => {"languages", "supported_languages", "example", "reference"}
    case HelpTable(_) => {"help", "commands"}
    case Suggestion(_, _) => {"response", "suggestion"}
    case SentimentResult(_, _) => {"sentiment", "score"}
    case Translation(_, _) => {"translated_text", "language"}
    case Summary(_) => {"summary"}
    case Failure(_) => {"error"}
  }
}
