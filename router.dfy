/** `NLPProcessor.process_command`: the free-text command router. The input
    is stripped, then classified by the first of five conditions on its
    lower-cased form that holds; the matching command's arguments are
    extracted from the stripped (not lower-cased) text and handed to one
    handler, or a static or error response is returned. */
module Router {
  import opened Text
  import opened Services
  import opened Responses
  import opened Handlers

  // ---------------------------------------------------------------------
  // Literals of the command language

  const LanguageKeywords: set<string> := {"languages", "lang", "language codes", "supported languages"}
  const HelpKeywords: set<string> := {"help", "?", "commands"}

  const TranslatePrefix := "translate to "
  const TranslatePrefixCapitalised := "Translate to "
  const SentimentPrefix := "analyze sentiment:"
  const SentimentPrefixCapitalised := "Analyze sentiment:"
  const SummarizePrefix := "summarize:"
  const SummarizePrefixCapitalised := "Summarize:"

  const FormatHint := "Please use format: 'translate to fr: Your text here'. Type 'languages' for supported codes."
  const CodeHint := "Please use 2-letter language codes (e.g., 'es', 'fr', 'hi'). Type 'languages' for supported codes."
  const SentimentTextHint := "Please provide text to analyze. Example: 'analyze sentiment: I love this!'"
  const SummaryTextHint := "Please provide text to summarize. Example: 'summarize: Your long text here'"

  const HelpCommands: seq<(string, string)> := [
    ("Translation", "translate to fr: Your text here"),
    ("Sentiment Analysis", "analyze sentiment: Your text here"),
    ("Summarization", "summarize: Your long text here"),
    ("Language Codes", "languages (shows supported languages)")]

  const DefaultResponse := "I can help with translation, sentiment analysis, and summarization!"
  const DefaultSuggestion := "Type 'help' to see available commands or 'languages' for translation codes."

  // ---------------------------------------------------------------------
  // Classification

  /** What the router decided, with the extracted arguments. The three
      `Missing...`/`BadLanguageCode` variants are the format errors detected
      before any handler runs. */
  datatype Command =
    | ListLanguages
    | Translate(code: string, text: string)
    | MissingColon
    | BadLanguageCode
    | Sentiment(text: string)
    | MissingSentimentText
    | Summarize(text: string)
    | MissingSummaryText
    | Help
    | Unrecognized

  /** The branch of `process_command` a command comes from, 0 to 5 in the
      order the source tests them. */
  function Branch(c: Command): nat {
    if c.ListLanguages? then 0
    else if c.Translate? || c.MissingColon? || c.BadLanguageCode? then 1
    else if c.Sentiment? || c.MissingSentimentText? then 2
    else if c.Summarize? || c.MissingSummaryText? then 3
    else if c.Help? then 4
    else 5
  }

  /** The five conditions, in the source's order, on the stripped and
      lower-cased input. */
  function Conditions(low: string): seq<bool> {
    [ low in LanguageKeywords,
      StartsWith(low, TranslatePrefix),
      StartsWith(low, SentimentPrefix),
      StartsWith(low, SummarizePrefix),
      low in HelpKeywords ]
  }

  /** Index of the first condition that holds, `|cs|` when none does. */
  function FirstHolding(cs: seq<bool>): (r: nat)
    ensures r <= |cs|
    ensures r < |cs| ==> cs[r]
    ensures forall j :: 0 <= j < r ==> !cs[j]
    decreases |cs|
  {
    if cs == [] then 0 else if cs[0] then 0 else 1 + FirstHolding(cs[1..])
  }

  /** The text with every lower-case and then every capitalised occurrence
      of a keyword removed, stripped: the language code of a translate
      command (from the text before the colon) and the payload of a
      sentiment or summarize command (from the whole input). */
  function KeywordRemoved(s: string, keyword: string, capitalised: string): (r: string)
    requires keyword != [] && capitalised != []
    ensures IsStripped(r)
  {
    Strip(ReplaceAll(ReplaceAll(s, keyword, ""), capitalised, ""))
  }

  function LanguagePart(left: string): (r: string)
    ensures IsStripped(r)
  {
    KeywordRemoved(left, TranslatePrefix, TranslatePrefixCapitalised)
  }

  /** Classifies the input and extracts the arguments. A translate command
      always carries a two-character code, and every payload handed to a
      handler is stripped and, for sentiment and summary, non-empty. */
  function Parse(input: string): (c: Command)
    ensures c.Translate? ==> |c.code| == 2 && IsStripped(c.code) && IsStripped(c.text)
    ensures c.Sentiment? ==> c.text != [] && IsStripped(c.text)
    ensures c.Summarize? ==> c.text != [] && IsStripped(c.text)
  {
    Classify(Strip(input))
  }

  /** The chain of tests of `process_command` on the stripped input `s`. */
  function Classify(s: string): (c: Command)
    ensures c.Translate? ==> |c.code| == 2 && IsStripped(c.code) && IsStripped(c.text)
    ensures c.Sentiment? ==> c.text != [] && IsStripped(c.text)
    ensures c.Summarize? ==> c.text != [] && IsStripped(c.text)
  {
    var low := Lower(s);
    if low in LanguageKeywords then ListLanguages
    else if StartsWith(low, TranslatePrefix) then ParseTranslate(s)
    else if StartsWith(low, SentimentPrefix) then ParseSentimentArgs(s)
    else if StartsWith(low, SummarizePrefix) then ParseSummarizeArgs(s)
    else if low in HelpKeywords then Help
    else Unrecognized
  }

  /** The sentiment branch: the payload, or the usage error when empty. */
  function ParseSentimentArgs(s: string): (c: Command)
    ensures c.Sentiment? || c.MissingSentimentText?
    ensures c.Sentiment? ==> c.text != [] && IsStripped(c.text)
  {
    var text := KeywordRemoved(s, SentimentPrefix, SentimentPrefixCapitalised);
    if text != [] then Sentiment(text) else MissingSentimentText
  }

  /** The summarize branch: the payload, or the usage error when empty. */
  function ParseSummarizeArgs(s: string): (c: Command)
    ensures c.Summarize? || c.MissingSummaryText?
    ensures c.Summarize? ==> c.text != [] && IsStripped(c.text)
  {
    var text := KeywordRemoved(s, SummarizePrefix, SummarizePrefixCapitalised);
    if text != [] then Summarize(text) else MissingSummaryText
  }

  /** The translate branch: split at the first colon, then check the code. */
  function ParseTranslate(s: string): (c: Command)
    ensures c.Translate? || c.MissingColon? || c.BadLanguageCode?
    ensures c.MissingColon? <==> ':' !in s
    ensures c.Translate? ==> |c.code| == 2 && IsStripped(c.code) && IsStripped(c.text)
  {
    match SplitFirst(s, ':')
    case None => MissingColon
    case Some((left, right)) =>
      var code := LanguagePart(left);
      if |code| != 2 then BadLanguageCode else Translate(code, Strip(right))
  }

  /** The response to a command: a static answer, a format error, or the
      handler's response. */
  function Dispatch(caps: Capabilities, c: Command): Response {
    match c
    case ListLanguages =>
      var table := GetSupportedLanguages();
      LanguageList(table.popularLanguages, table.exampleUsage, table.fullListLink)
    case Translate(code, text) => TranslateText(caps, text, code)
    case MissingColon => Failure(FormatHint)
    case BadLanguageCode => Failure(CodeHint)
    case Sentiment(text) => AnalyzeSentiment(caps, text)
    case MissingSentimentText => Failure(SentimentTextHint)
    case Summarize(text) => SummarizeText(caps, text, DefaultMaxLength, DefaultMinLength)
    case MissingSummaryText => Failure(SummaryTextHint)
    case Help => HelpTable(HelpCommands)
    case Unrecognized => Suggestion(DefaultResponse, DefaultSuggestion)
  }

  /** `process_command`. */
  function ProcessCommand(caps: Capabilities, input: string): Response {
    Dispatch(caps, Parse(input))
  }

  /** Whether answering the command consults a capability. */
  predicate ReachesCapability(c: Command) {
    (c.Translate? && c.code != "en") || c.Sentiment? || c.Summarize?
  }

  // ---------------------------------------------------------------------
  // Priority and exclusivity

  /** Exactly one branch fires, and it is the first of the five conditions
      that holds on the stripped, lower-cased input (branch 5 when none). */
  lemma RoutingOrder(input: string)
    ensures Branch(Parse(input)) == FirstHolding(Conditions(Lower(Strip(input))))
  {
    ClassifyOrder(Strip(input));
  }

  lemma ClassifyOrder(s: string)
    ensures Branch(Classify(s)) == FirstHolding(Conditions(Lower(s)))
  {
    var low := Lower(s);
    if low in LanguageKeywords {
      OrderLanguages(s);
    } else if StartsWith(low, TranslatePrefix) {
      OrderTranslate(s);
    } else if StartsWith(low, SentimentPrefix) {
      OrderSentiment(s);
    } else if StartsWith(low, SummarizePrefix) {
      OrderSummarize(s);
    } else if low in HelpKeywords {
      OrderHelp(s);
    } else {
      OrderNone(s);
    }
  }

  // One lemma per path through the chain of tests.

  lemma OrderLanguages(s: string)
    requires Lower(s) in LanguageKeywords
    ensures Branch(Classify(s)) == FirstHolding(Conditions(Lower(s)))
  {
    FirstOfFive(Conditions(Lower(s)));
    ClassifyLanguages(s);
  }

  lemma OrderTranslate(s: string)
    requires Lower(s) !in LanguageKeywords && StartsWith(Lower(s), TranslatePrefix)
    ensures Branch(Classify(s)) == FirstHolding(Conditions(Lower(s)))
  {
    FirstOfFive(Conditions(Lower(s)));
    ClassifyTranslate(s);
  }

  lemma OrderSentiment(s: string)
    requires Lower(s) !in LanguageKeywords && !StartsWith(Lower(s), TranslatePrefix)
    requires StartsWith(Lower(s), SentimentPrefix)
    ensures Branch(Classify(s)) == FirstHolding(Conditions(Lower(s)))
  {
    KeywordsExclusive(Lower(s));
    assert Classify(s) == ParseSentimentArgs(s);
    BranchOfSentiment(ParseSentimentArgs(s));
    FirstOfFive(Conditions(Lower(s)));
  }

  lemma OrderSummarize(s: string)
    requires Lower(s) !in LanguageKeywords && !StartsWith(Lower(s), TranslatePrefix)
    requires !StartsWith(Lower(s), SentimentPrefix) && StartsWith(Lower(s), SummarizePrefix)
    ensures Branch(Classify(s)) == FirstHolding(Conditions(Lower(s)))
  {
    KeywordsExclusive(Lower(s));
    assert Classify(s) == ParseSummarizeArgs(s);
    BranchOfSummarize(ParseSummarizeArgs(s));
    FirstOfFive(Conditions(Lower(s)));
  }

  lemma BranchOfSentiment(c: Command)
    requires c.Sentiment? || c.MissingSentimentText?
    ensures Branch(c) == 2
  {
  }

  lemma BranchOfSummarize(c: Command)
    requires c.Summarize? || c.MissingSummaryText?
    ensures Branch(c) == 3
  {
  }

  lemma OrderHelp(s: string)
    requires Lower(s) !in LanguageKeywords && !StartsWith(Lower(s), TranslatePrefix)
    requires !StartsWith(Lower(s), SentimentPrefix) && !StartsWith(Lower(s), SummarizePrefix)
    requires Lower(s) in HelpKeywords
    ensures Branch(Classify(s)) == FirstHolding(Conditions(Lower(s)))
  {
    FirstOfFive(Conditions(Lower(s)));
    ClassifyHelp(s);
  }

  lemma OrderNone(s: string)
    requires NoKeyword(Lower(s))
    ensures Branch(Classify(s)) == FirstHolding(Conditions(Lower(s)))
  {
    FirstOfFive(Conditions(Lower(s)));
    NoConditionHolds(s);
  }

  lemma FirstOfFive(cs: seq<bool>)
    requires |cs| == 5
    ensures FirstHolding(cs) ==
      if cs[0] then 0 else if cs[1] then 1 else if cs[2] then 2
      else if cs[3] then 3 else if cs[4] then 4 else 5
  {
  }

  lemma PrefixesClash(s: string, p: string, q: string, k: nat)
    requires k < |p| && k < |q| && p[k] != q[k]
    ensures !(StartsWith(s, p) && StartsWith(s, q))
  {
    if |p| <= |s| && |q| <= |s| {
      assert s[..|p|][k] == s[k] == s[..|q|][k];
    }
  }

  /** No input meets two of the five conditions, so the order in which the
      source tests them never changes the outcome. */
  lemma ConditionsExclusive(low: string)
    ensures forall i, j :: 0 <= i < j < 5 && Conditions(low)[i] ==> !Conditions(low)[j]
  {
    KeywordsExclusive(low);
  }

  /** The same, stated on the tests themselves. */
  lemma KeywordsExclusive(low: string)
    ensures low in LanguageKeywords ==> low !in HelpKeywords
    ensures low in LanguageKeywords || low in HelpKeywords ==>
      !StartsWith(low, TranslatePrefix) && !StartsWith(low, SentimentPrefix)
      && !StartsWith(low, SummarizePrefix)
    ensures !(StartsWith(low, TranslatePrefix) && StartsWith(low, SentimentPrefix))
    ensures !(StartsWith(low, TranslatePrefix) && StartsWith(low, SummarizePrefix))
    ensures !(StartsWith(low, SentimentPrefix) && StartsWith(low, SummarizePrefix))
  {
    PrefixesClash(low, TranslatePrefix, SentimentPrefix, 0);
    PrefixesClash(low, TranslatePrefix, SummarizePrefix, 0);
    PrefixesClash(low, SentimentPrefix, SummarizePrefix, 0);
    if low in LanguageKeywords || low in HelpKeywords {
      assert !StartsWith(low, TranslatePrefix);
      assert !StartsWith(low, SentimentPrefix);
      if low == "supported languages" {
        PrefixesClash(low, SummarizePrefix, low, 2);
      }
      assert !(low in LanguageKeywords && low in HelpKeywords);
    }
  }

  /** What each branch answers: the languages table, a translation, a
      sentiment or a summary (or their errors), the four-entry help table,
      and otherwise the suggestion, which has no `error` key. */
  lemma BranchResponses(caps: Capabilities, input: string)
    ensures var r := ProcessCommand(caps, input);
      match Branch(Parse(input))
      case 0 => r == LanguageList(PopularLanguages, ExampleUsage, FullListLink) && |r.languages| == 21
                && Keys(r) == {"languages", "supported_languages", "example", "reference"}
      case 1 => r.Translation? || r.Failure?
      case 2 => r.SentimentResult? || r.Failure?
      case 3 => r.Summary? || r.Failure?
      case 4 => r == HelpTable(HelpCommands) && |r.commands| == 4 && Keys(r) == {"help", "commands"}
      case _ => r == Suggestion(DefaultResponse, DefaultSuggestion) && Keys(r) == {"response", "suggestion"}
  {
    RespondsTo(caps, input);
    DispatchShape(caps, Parse(input));
  }

  lemma RespondsTo(caps: Capabilities, input: string)
    ensures ProcessCommand(caps, input) == Dispatch(caps, Parse(input))
  {
  }

  /** The response shape of each command. */
  lemma DispatchShape(caps: Capabilities, c: Command)
    ensures var r := Dispatch(caps, c);
      match Branch(c)
      case 0 => r == LanguageList(PopularLanguages, ExampleUsage, FullListLink) && |r.languages| == 21
                && Keys(r) == {"languages", "supported_languages", "example", "reference"}
      case 1 => r.Translation? || r.Failure?
      case 2 => r.SentimentResult? || r.Failure?
      case 3 => r.Summary? || r.Failure?
      case 4 => r == HelpTable(HelpCommands) && |r.commands| == 4 && Keys(r) == {"help", "commands"}
      case _ => r == Suggestion(DefaultResponse, DefaultSuggestion) && Keys(r) == {"response", "suggestion"}
  {
    match c
    case ListLanguages => StaticKeys();
    case Help => StaticKeys();
    case Unrecognized => StaticKeys();
    case _ =>
  }

  lemma StaticKeys()
    ensures Keys(LanguageList(PopularLanguages, ExampleUsage, FullListLink))
      == {"languages", "supported_languages", "example", "reference"}
    ensures Keys(HelpTable(HelpCommands)) == {"help", "commands"}
    ensures Keys(Suggestion(DefaultResponse, DefaultSuggestion)) == {"response", "suggestion"}
    ensures |PopularLanguages| == 21 && |HelpCommands| == 4
  {
  }

  /** A command that consults no capability is answered the same whatever
      the capabilities do: format errors never call `translate_text`. */
  lemma CapabilitiesUnused(caps1: Capabilities, caps2: Capabilities, input: string)
    requires !ReachesCapability(Parse(input))
    ensures ProcessCommand(caps1, input) == ProcessCommand(caps2, input)
  {
    RespondsTo(caps1, input);
    RespondsTo(caps2, input);
    DispatchUnused(caps1, caps2, Parse(input));
  }

  lemma DispatchUnused(caps1: Capabilities, caps2: Capabilities, c: Command)
    requires !ReachesCapability(c)
    ensures Dispatch(caps1, c) == Dispatch(caps2, c)
  {
    if c.Translate? {
      EnglishIgnoresCapabilities(caps1, caps2, c.text);
    }
  }

  // ---------------------------------------------------------------------
  // Static answers

  lemma LowerPrefix(s: string, p: string)
    requires StartsWith(s, p)
    ensures StartsWith(Lower(s), Lower(p))
  {
    assert Lower(s)[..|p|] == Lower(p);
  }

  /** A word whose lower-case form is a keyword (none of which begins or
      ends with whitespace) starts and ends with no whitespace. */
  lemma KeywordCasingStripped(word: string, keyword: string)
    requires Lower(word) == keyword && keyword != [] && IsStripped(keyword)
    ensures IsStripped(word)
  {
    LowerKeepsSpace(word[0]);
    LowerKeepsSpace(word[|word| - 1]);
  }

  /** Any casing of a language keyword, with any whitespace around it, is
      answered with the 21-entry table, the example and the reference. */
  lemma LanguagesAnyCasing(caps: Capabilities, w1: string, word: string, w2: string)
    requires AllSpace(w1) && AllSpace(w2) && Lower(word) in LanguageKeywords
    ensures ProcessCommand(caps, w1 + word + w2) ==
      LanguageList(PopularLanguages, "translate to es: Hello world",
                   "https://www.science.co.il/language/Codes.php")
    ensures |PopularLanguages| == 21
  {
    LanguagesWord(w1, word, w2);
    DispatchLanguages(caps, w1 + word + w2);
  }

  lemma LanguagesWord(w1: string, word: string, w2: string)
    requires AllSpace(w1) && AllSpace(w2) && Lower(word) in LanguageKeywords
    ensures Parse(w1 + word + w2) == ListLanguages
  {
    KeywordCasingStripped(word, Lower(word));
    StripPadded(w1, word, w2);
    ClassifyLanguages(word);
  }

  lemma DispatchLanguages(caps: Capabilities, input: string)
    requires Parse(input) == ListLanguages
    ensures ProcessCommand(caps, input) ==
      LanguageList(PopularLanguages, "translate to es: Hello world",
                   "https://www.science.co.il/language/Codes.php")
    ensures |PopularLanguages| == 21
  {
  }

  /** Any casing of a help keyword, with any whitespace around it, is
      answered with the four-entry command table. */
  lemma HelpAnyCasing(caps: Capabilities, w1: string, word: string, w2: string)
    requires AllSpace(w1) && AllSpace(w2) && Lower(word) in HelpKeywords
    ensures ProcessCommand(caps, w1 + word + w2) == HelpTable(HelpCommands)
    ensures |HelpCommands| == 4
  {
    HelpWord(w1, word, w2);
    DispatchHelp(caps, w1 + word + w2);
  }

  lemma HelpWord(w1: string, word: string, w2: string)
    requires AllSpace(w1) && AllSpace(w2) && Lower(word) in HelpKeywords
    ensures Parse(w1 + word + w2) == Help
  {
    KeywordCasingStripped(word, Lower(word));
    StripPadded(w1, word, w2);
    ClassifyHelp(word);
  }

  lemma DispatchHelp(caps: Capabilities, input: string)
    requires Parse(input) == Help
    ensures ProcessCommand(caps, input) == HelpTable(HelpCommands)
    ensures |HelpCommands| == 4
  {
  }

  // ---------------------------------------------------------------------
  // The translate branch

  /** Once the stripped input starts (in any casing) with "translate to ",
      it is split at its first colon: the code is the stripped text before
      the colon with the keyword removed, the payload the stripped rest. */
  lemma TranslateExtraction(input: string, i: nat)
    requires StartsWith(Lower(Strip(input)), TranslatePrefix)
    requires i < |Strip(input)| && Strip(input)[i] == ':' && ':' !in Strip(input)[..i]
    ensures var s := Strip(input);
      var code := LanguagePart(s[..i]);
      Parse(input) == if |code| == 2 then Translate(code, Strip(s[i + 1..])) else BadLanguageCode
  {
    var s := Strip(input);
    ClassifyTranslate(s);
    SplitAt(s, ':', i);
  }

  lemma ClassifyLanguages(s: string)
    requires Lower(s) in LanguageKeywords
    ensures Classify(s) == ListLanguages
  {
  }

  lemma ClassifyHelp(s: string)
    requires Lower(s) in HelpKeywords
    ensures Classify(s) == Help
  {
    KeywordsExclusive(Lower(s));
  }

  lemma ClassifyTranslate(s: string)
    requires StartsWith(Lower(s), TranslatePrefix)
    ensures Classify(s) == ParseTranslate(s)
  {
    KeywordsExclusive(Lower(s));
  }

  /** Without a colon the translate branch answers the format error. */
  lemma TranslateWithoutColon(caps: Capabilities, input: string)
    requires StartsWith(Lower(Strip(input)), TranslatePrefix) && ':' !in Strip(input)
    ensures ProcessCommand(caps, input) == Failure(FormatHint)
  {
    ClassifyTranslate(Strip(input));
    assert Parse(input) == MissingColon;
    DispatchMissingColon(caps, input);
  }

  lemma DispatchMissingColon(caps: Capabilities, input: string)
    requires Parse(input) == MissingColon
    ensures ProcessCommand(caps, input) == Failure(FormatHint)
  {
  }

  /** With a colon but a code whose length is not 2, the translate branch
      answers the two-letter error. */
  lemma TranslateBadCode(caps: Capabilities, input: string, i: nat)
    requires StartsWith(Lower(Strip(input)), TranslatePrefix)
    requires i < |Strip(input)| && Strip(input)[i] == ':' && ':' !in Strip(input)[..i]
    requires |LanguagePart(Strip(input)[..i])| != 2
    ensures ProcessCommand(caps, input) == Failure(CodeHint)
  {
    TranslateExtraction(input, i);
    assert Parse(input) == BadLanguageCode;
    DispatchBadCode(caps, input);
  }

  lemma DispatchBadCode(caps: Capabilities, input: string)
    requires Parse(input) == BadLanguageCode
    ensures ProcessCommand(caps, input) == Failure(CodeHint)
  {
  }

  lemma LowerTranslatePrefix()
    ensures Lower(TranslatePrefix) == TranslatePrefix
  {
  }

  /** A language code has no whitespace and no colon. */
  lemma CodeStripped(code: string)
    requires IsLanguageCode(code)
    ensures IsStripped(code) && ':' !in code
  {
  }

  /** The head "translate to " + code + ":" of a well-formed command. */
  lemma TranslateHead(code: string)
    requires IsLanguageCode(code)
    ensures var p := TranslatePrefix + code + ":";
      && |p| == 16 && IsStripped(p) && p[15] == ':'
      && p[..15] == TranslatePrefix + code && p[..13] == TranslatePrefix
  {
    var p := TranslatePrefix + code + ":";
    HeadOfThree(TranslatePrefix, code, ":");
    PrefixSlices(p, TranslatePrefix, 0);
  }

  lemma ColonFreeHead(code: string)
    requires IsLanguageCode(code)
    ensures ':' !in TranslatePrefix + code
  {
    CodeStripped(code);
    assert ':' !in TranslatePrefix;
  }

  /** Removing the keyword from "translate to " + code leaves the code. */
  lemma LanguagePartOfCode(code: string)
    requires IsLanguageCode(code)
    ensures LanguagePart(TranslatePrefix + code) == code
  {
    ShortNoInfix(code, TranslatePrefix);
    ShortNoInfix(code, TranslatePrefixCapitalised);
    DeleteHead(TranslatePrefix, code);
    CodeStripped(code);
    StrippedFixed(code);
  }

  /** Stripping a well-formed command keeps its head and strips its text. */
  lemma WellFormedStripped(code: string, t: string)
    requires IsLanguageCode(code)
    ensures var s := Strip(TranslatePrefix + code + ":" + t);
      && 16 <= |s| && s[..15] == TranslatePrefix + code && s[15] == ':'
      && s[..13] == TranslatePrefix && Strip(s[16..]) == Strip(t)
  {
    var p := TranslatePrefix + code + ":";
    TranslateHead(code);
    StripBehindHead(p, t);
    var s := Strip(p + t);
    PrefixSlices(s, p, 15);
    PrefixSlices(s, p, 13);
  }

  /** A well-formed command, "translate to " + two lower-case letters + ":"
      + any text, is a translate command with that code and the stripped
      text. */
  lemma WellFormedTranslate(code: string, t: string)
    requires IsLanguageCode(code)
    ensures Parse(TranslatePrefix + code + ":" + t) == Translate(code, Strip(t))
  {
    var input := TranslatePrefix + code + ":" + t;
    WellFormedStripped(code, t);
    var s := Strip(input);
    LowerPrefix(s, TranslatePrefix);
    LowerTranslatePrefix();
    ColonFreeHead(code);
    LanguagePartOfCode(code);
    TranslateExtraction(input, 15);
  }

  /** "translate to en:" returns the stripped text unchanged, tagged "en". */
  lemma TranslateToEnglish(caps: Capabilities, t: string)
    ensures ProcessCommand(caps, "translate to en:" + t) == Translation(Strip(t), "en")
  {
    assert "translate to en:" == TranslatePrefix + "en" + ":";
    WellFormedTranslate("en", t);
  }

  /** Every code of the language table yields a translate command. */
  lemma TableCodesTranslate(i: nat, t: string)
    requires i < |PopularLanguages|
    ensures Parse(TranslatePrefix + PopularLanguages[i].0 + ":" + t)
      == Translate(PopularLanguages[i].0, Strip(t))
  {
    SupportedLanguagesTable();
    WellFormedTranslate(PopularLanguages[i].0, t);
  }

  lemma FrenchLiteral()
    ensures "translate to fr: Hello world" == TranslatePrefix + "fr" + ":" + " Hello world"
  {
  }

  lemma UsageLiteral()
    ensures ExampleUsage == TranslatePrefix + "es" + ":" + " Hello world"
  {
  }

  lemma HelloWorldStripped()
    ensures Strip(" Hello world") == "Hello world"
  {
    assert " Hello world" == " " + "Hello world";
    StripLeft(" ", "Hello world");
  }

  /** The worked example "translate to fr: Hello world". */
  lemma FrenchExample()
    ensures Parse("translate to fr: Hello world") == Translate("fr", "Hello world")
  {
    FrenchLiteral();
    WellFormedTranslate("fr", " Hello world");
    HelloWorldStripped();
  }

  /** The usage example that the languages answer gives is itself a
      well-formed command. */
  lemma ExampleUsageTranslates()
    ensures Parse(ExampleUsage) == Translate("es", "Hello world")
  {
    UsageLiteral();
    WellFormedTranslate("es", " Hello world");
    HelloWorldStripped();
  }

  /** With the service answering a non-200 status, the French example is
      answered with "service unavailable". */
  lemma FrenchServiceUnavailable(caps: Capabilities)
    requires caps.translateRequest("Hello world", "fr").Reply?
    requires caps.translateRequest("Hello world", "fr").statusCode != 200
    ensures ProcessCommand(caps, "translate to fr: Hello world")
      == Failure("Translation service unavailable. Please try again later.")
  {
    FrenchExample();
  }

  /** Neither a keyword nor a keyword prefix. */
  predicate NoKeyword(low: string) {
    && low !in LanguageKeywords && !StartsWith(low, TranslatePrefix)
    && !StartsWith(low, SentimentPrefix) && !StartsWith(low, SummarizePrefix)
    && low !in HelpKeywords
  }

  /** An input meeting none of the five conditions is unrecognized. */
  lemma NoConditionHolds(s: string)
    requires NoKeyword(Lower(s))
    ensures Classify(s) == Unrecognized
  {
  }

  lemma BareKeywordLiterals()
    ensures "translate to " == "translate to" + " "
    ensures Lower("translate to") == "translate to"
  {
  }

  /** "translate to " alone is stripped to "translate to", which no longer
      has the keyword's trailing space, and falls through to the default. */
  lemma BareTranslateKeyword(caps: Capabilities)
    ensures ProcessCommand(caps, "translate to ") == Suggestion(DefaultResponse, DefaultSuggestion)
  {
    BareKeywordParse();
    DispatchUnrecognized(caps, "translate to ");
  }

  lemma BareKeywordParse()
    ensures Parse("translate to ") == Unrecognized
  {
    var s := "translate to";
    BareKeywordLiterals();
    StripRight(s, " ");
    BareKeywordUnmatched();
    NoConditionHolds(s);
  }

  lemma BareKeywordUnmatched()
    ensures NoKeyword(Lower("translate to"))
  {
    BareKeywordLiterals();
    var s := "translate to";
    assert s[0] != SummarizePrefix[0];
    assert s[0] != SentimentPrefix[0];
  }

  lemma DispatchUnrecognized(caps: Capabilities, input: string)
    requires Parse(input) == Unrecognized
    ensures ProcessCommand(caps, input) == Suggestion(DefaultResponse, DefaultSuggestion)
  {
  }

  // ---------------------------------------------------------------------
  // The sentiment and summarize branches

  lemma ClassifySentiment(s: string)
    requires StartsWith(Lower(s), SentimentPrefix)
    ensures var text := KeywordRemoved(s, SentimentPrefix, SentimentPrefixCapitalised);
      Classify(s) == if text != [] then Sentiment(text) else MissingSentimentText
  {
    KeywordsExclusive(Lower(s));
  }

  lemma ClassifySummarize(s: string)
    requires StartsWith(Lower(s), SummarizePrefix)
    ensures var text := KeywordRemoved(s, SummarizePrefix, SummarizePrefixCapitalised);
      Classify(s) == if text != [] then Summarize(text) else MissingSummaryText
  {
    KeywordsExclusive(Lower(s));
  }

  /** Removing a keyword that heads the text and occurs nowhere else, and
      then its capitalised spelling, which does not occur, leaves the rest. */
  lemma PayloadAfterKeyword(keyword: string, capitalised: string, t: string)
    requires keyword != [] && capitalised != []
    requires !HasInfix(t, keyword) && !HasInfix(t, capitalised)
    ensures KeywordRemoved(keyword + t, keyword, capitalised) == Strip(t)
  {
    DeleteHead(keyword, t);
  }

  lemma KeywordLiterals()
    ensures IsStripped(SentimentPrefix) && Lower(SentimentPrefix) == SentimentPrefix
    ensures IsStripped(SummarizePrefix) && Lower(SummarizePrefix) == SummarizePrefix
  {
  }

  /** An input made of whitespace, a lower-case keyword and a text strips to
      the keyword followed by a prefix of the text that strips like the
      text, and its lowered form starts with the keyword. */
  lemma KeywordInput(w: string, keyword: string, t: string)
    requires AllSpace(w) && keyword != [] && IsStripped(keyword) && Lower(keyword) == keyword
    ensures var s := Strip(w + keyword + t);
      && |keyword| <= |s| && s == keyword + s[|keyword|..]
      && StartsWith(t, s[|keyword|..]) && Strip(s[|keyword|..]) == Strip(t)
      && StartsWith(Lower(s), keyword)
  {
    assert w + keyword + t == w + (keyword + t);
    assert (keyword + t)[0] == keyword[0];
    StripLeading(w, keyword + t);
    KeywordLed(keyword, t);
    var s := Strip(keyword + t);
    assert s[..|keyword|] == keyword;
    LowerPrefix(s, keyword);
  }

  /** The sentiment branch on a stripped input, the keyword followed by a
      text in which neither spelling recurs. */
  lemma ClassifiedSentiment(s: string, u: string)
    requires s == SentimentPrefix + u && StartsWith(Lower(s), SentimentPrefix)
    requires !HasInfix(u, SentimentPrefix) && !HasInfix(u, SentimentPrefixCapitalised)
    ensures Classify(s) == if Strip(u) == [] then MissingSentimentText else Sentiment(Strip(u))
  {
    ClassifySentiment(s);
    PayloadAfterKeyword(SentimentPrefix, SentimentPrefixCapitalised, u);
  }

  /** "analyze sentiment:", with any whitespace before it, followed by a text
      in which neither spelling of the keyword recurs: the payload is that
      text, stripped, and an empty one is the usage error. */
  lemma ParseSentiment(w: string, t: string)
    requires AllSpace(w)
    requires !HasInfix(t, SentimentPrefix) && !HasInfix(t, SentimentPrefixCapitalised)
    ensures Parse(w + SentimentPrefix + t) ==
      if Strip(t) == [] then MissingSentimentText else Sentiment(Strip(t))
  {
    KeywordLiterals();
    KeywordInput(w, SentimentPrefix, t);
    var s := Strip(w + SentimentPrefix + t);
    var u := s[|SentimentPrefix|..];
    NoInfixInPrefix(t, u, SentimentPrefix);
    NoInfixInPrefix(t, u, SentimentPrefixCapitalised);
    ClassifiedSentiment(s, u);
  }

  lemma DispatchMissingSentiment(caps: Capabilities, input: string)
    requires Parse(input) == MissingSentimentText
    ensures ProcessCommand(caps, input) == Failure(SentimentTextHint)
  {
  }

  lemma DispatchSentiment(caps: Capabilities, input: string, text: string)
    requires Parse(input) == Sentiment(text)
    ensures ProcessCommand(caps, input) == AnalyzeSentiment(caps, text)
  {
  }

  /** The response to such a command: the usage error, with the scorer not
      consulted, or the analysis of the stripped text. */
  lemma SentimentCommand(caps: Capabilities, w: string, t: string)
    requires AllSpace(w)
    requires !HasInfix(t, SentimentPrefix) && !HasInfix(t, SentimentPrefixCapitalised)
    ensures ProcessCommand(caps, w + SentimentPrefix + t) ==
      if Strip(t) == [] then Failure(SentimentTextHint) else AnalyzeSentiment(caps, Strip(t))
  {
    ParseSentiment(w, t);
    if Strip(t) == [] {
      DispatchMissingSentiment(caps, w + SentimentPrefix + t);
    } else {
      DispatchSentiment(caps, w + SentimentPrefix + t, Strip(t));
    }
  }

  lemma ClassifiedSummarize(s: string, u: string)
    requires s == SummarizePrefix + u && StartsWith(Lower(s), SummarizePrefix)
    requires !HasInfix(u, SummarizePrefix) && !HasInfix(u, SummarizePrefixCapitalised)
    ensures Classify(s) == if Strip(u) == [] then MissingSummaryText else Summarize(Strip(u))
  {
    ClassifySummarize(s);
    PayloadAfterKeyword(SummarizePrefix, SummarizePrefixCapitalised, u);
  }

  /** The same for "summarize:". */
  lemma ParseSummarize(w: string, t: string)
    requires AllSpace(w)
    requires !HasInfix(t, SummarizePrefix) && !HasInfix(t, SummarizePrefixCapitalised)
    ensures Parse(w + SummarizePrefix + t) ==
      if Strip(t) == [] then MissingSummaryText else Summarize(Strip(t))
  {
    KeywordLiterals();
    KeywordInput(w, SummarizePrefix, t);
    var s := Strip(w + SummarizePrefix + t);
    var u := s[|SummarizePrefix|..];
    NoInfixInPrefix(t, u, SummarizePrefix);
    NoInfixInPrefix(t, u, SummarizePrefixCapitalised);
    ClassifiedSummarize(s, u);
  }

  lemma DispatchMissingSummary(caps: Capabilities, input: string)
    requires Parse(input) == MissingSummaryText
    ensures ProcessCommand(caps, input) == Failure(SummaryTextHint)
  {
  }

  lemma DispatchSummarize(caps: Capabilities, input: string, text: string)
    requires Parse(input) == Summarize(text)
    ensures ProcessCommand(caps, input) == SummarizeText(caps, text, 150, 50)
  {
  }

  /** The summarizer receives the stripped text with the default bounds
      150 and 50. */
  lemma SummarizeCommand(caps: Capabilities, w: string, t: string)
    requires AllSpace(w)
    requires !HasInfix(t, SummarizePrefix) && !HasInfix(t, SummarizePrefixCapitalised)
    ensures ProcessCommand(caps, w + SummarizePrefix + t) ==
      if Strip(t) == [] then Failure(SummaryTextHint) else SummarizeText(caps, Strip(t), 150, 50)
  {
    ParseSummarize(w, t);
    if Strip(t) == [] {
      DispatchMissingSummary(caps, w + SummarizePrefix + t);
    } else {
      DispatchSummarize(caps, w + SummarizePrefix + t, Strip(t));
    }
  }

  /** "summarize:" with nothing after it is answered with the usage error. */
  lemma SummarizeNothing(caps: Capabilities)
    ensures ProcessCommand(caps, "summarize:")
      == Failure("Please provide text to summarize. Example: 'summarize: Your long text here'")
  {
    assert "summarize:" == [] + SummarizePrefix + [];
    ShortNoInfix("", SummarizePrefix);
    ShortNoInfix("", SummarizePrefixCapitalised);
    SummarizeCommand(caps, [], []);
  }

  /** Matching ignores case but removal does not: a stripped input whose
      keyword is typed in neither of the two removed spellings, and which
      never contains them, reaches the summarizer whole, keyword included. */
  lemma KeywordKeptInOtherCasing(s: string)
    requires IsStripped(s) && StartsWith(Lower(s), SummarizePrefix)
    requires !HasInfix(s, SummarizePrefix) && !HasInfix(s, SummarizePrefixCapitalised)
    ensures Parse(s) == Summarize(s)
  {
    StrippedFixed(s);
    ClassifySummarize(s);
  }

  /** Both removals on `summarize:`, a stretch without `s` or `S`, the keyword
      again and a text in which neither spelling recurs: both occurrences go. */
  lemma BothOccurrencesRemoved(u: string, t: string)
    requires SummarizePrefix[0] !in u && SummarizePrefixCapitalised[0] !in u
    requires !HasInfix(t, SummarizePrefix) && !HasInfix(t, SummarizePrefixCapitalised)
    ensures KeywordRemoved(SummarizePrefix + u + SummarizePrefix + t,
                           SummarizePrefix, SummarizePrefixCapitalised) == Strip(u + t)
  {
    assert SummarizePrefix + u + SummarizePrefix + t == SummarizePrefix + (u + (SummarizePrefix + t));
    ReplaceHead(SummarizePrefix, u + (SummarizePrefix + t), []);
    ReplaceSkipsFree(u, SummarizePrefix + t, SummarizePrefix, []);
    DeleteHead(SummarizePrefix, t);
    assert [] + (u + t) == u + t;
    NoInfixBehindFree(u, t, SummarizePrefixCapitalised);
  }

  /** `replace` deletes every occurrence of the keyword, not just the one
      that heads the input: a stripped input in which `summarize:` recurs
      behind a stretch without `s` or `S` is summarized with both gone. */
  lemma SummarizeKeywordRecurs(s: string, u: string, t: string)
    requires s == SummarizePrefix + u + SummarizePrefix + t && IsStripped(s)
    requires SummarizePrefix[0] !in u && SummarizePrefixCapitalised[0] !in u
    requires !HasInfix(t, SummarizePrefix) && !HasInfix(t, SummarizePrefixCapitalised)
    ensures Parse(s) == if Strip(u + t) == [] then MissingSummaryText else Summarize(Strip(u + t))
  {
    assert s == SummarizePrefix + (u + SummarizePrefix + t);
    StrippedParse(s);
    HeadedLower(s, u + SummarizePrefix + t);
    ClassifySummarize(s);
    BothOccurrencesRemoved(u, t);
  }

  /** A stripped input is classified as it stands. */
  lemma StrippedParse(s: string)
    requires IsStripped(s)
    ensures Parse(s) == Classify(s)
  {
    StrippedFixed(s);
  }

  /** An input headed by `summarize:` passes the summarize test. */
  lemma HeadedLower(s: string, x: string)
    requires s == SummarizePrefix + x
    ensures StartsWith(Lower(s), SummarizePrefix)
  {
    KeywordLiterals();
    assert s[..|SummarizePrefix|] == SummarizePrefix;
    LowerPrefix(s, SummarizePrefix);
  }

  lemma RecurringLiterals()
    ensures "summarize: a summarize: b" == SummarizePrefix + " a " + SummarizePrefix + " b"
    ensures IsStripped("summarize: a summarize: b")
    ensures SummarizePrefix[0] !in " a " && SummarizePrefixCapitalised[0] !in " a "
    ensures " a " + " b" == " " + "a  b" + []
  {
  }

  lemma RecurringParse(s: string)
    requires s == "summarize: a summarize: b"
    ensures Parse(s) == Summarize("a  b")
  {
    RecurringLiterals();
    ShortNoInfix(" b", SummarizePrefix);
    ShortNoInfix(" b", SummarizePrefixCapitalised);
    SummarizeKeywordRecurs(s, " a ", " b");
    StripPadded(" ", "a  b", []);
  }

  /** "summarize: a summarize: b" is summarized as "a  b", with the second
      keyword removed as well. */
  lemma RecurringSummarize(caps: Capabilities)
    ensures ProcessCommand(caps, "summarize: a summarize: b") == SummarizeText(caps, "a  b", 150, 50)
  {
    RecurringParse("summarize: a summarize: b");
    DispatchSummarize(caps, "summarize: a summarize: b", "a  b");
  }

  lemma UpperCaseLiterals()
    ensures IsStripped("SUMMARIZE: x")
    ensures Lower("SUMMARIZE: x") == "summarize: x"
    ensures StartsWith("summarize: x", SummarizePrefix)
    ensures SummarizePrefix[0] !in "SUMMARIZE: x"
    ensures SummarizePrefixCapitalised[1] !in "SUMMARIZE: x"
  {
  }

  lemma UpperCaseParse(s: string)
    requires s == "SUMMARIZE: x"
    ensures Parse(s) == Summarize(s)
  {
    UpperCaseLiterals();
    AbsentCharNoInfix(s, SummarizePrefix, 0);
    AbsentCharNoInfix(s, SummarizePrefixCapitalised, 1);
    KeywordKeptInOtherCasing(s);
  }

  /** "SUMMARIZE: x" is summarized as "SUMMARIZE: x". */
  lemma UpperCaseSummarize(caps: Capabilities)
    ensures ProcessCommand(caps, "SUMMARIZE: x") == SummarizeText(caps, "SUMMARIZE: x", 150, 50)
  {
    UpperCaseParse("SUMMARIZE: x");
    DispatchSummarize(caps, "SUMMARIZE: x", "SUMMARIZE: x");
  }

  lemma SentimentLiteral()
    ensures "analyze sentiment: I love this!" == [] + SentimentPrefix + " I love this!"
  {
  }

  lemma LoveStripped()
    ensures Strip(" I love this!") == "I love this!"
  {
    var c := "I love this!";
    assert " I love this!" == " " + c;
    StripLeft(" ", c);
  }

  /** The worked example "analyze sentiment: I love this!" with a polarity
      above the threshold. */
  lemma SentimentExample(caps: Capabilities, p: real)
    requires caps.polarity("I love this!") == Returned(p) && p > 0.1
    ensures ProcessCommand(caps, "analyze sentiment: I love this!")
      == SentimentResult("Positive \U{1F60A}", p)
  {
    SentimentLiteral();
    LoveStripped();
    ShortNoInfix(" I love this!", SentimentPrefix);
    ShortNoInfix(" I love this!", SentimentPrefixCapitalised);
    SentimentCommand(caps, [], " I love this!");
  }
}
