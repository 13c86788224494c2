/** The handlers of `NLPProcessor`: the static language table, sentiment
    bucketing, translation and summarization. Each handler's call into a
    library is an injected capability; what is modelled is the decision
    logic around the call and the response built from its outcome. */
module Handlers {
  import opened Text
  import opened Services
  import opened Responses

  // ---------------------------------------------------------------------
  // Supported languages

  /** The reply of `get_supported_languages`. */
  datatype SupportedLanguages = SupportedLanguages(
    popularLanguages: seq<(string, string)>,
    exampleUsage: string,
    fullListLink: string)

  /** `popular_languages`, in the dictionary's insertion order. */
  const PopularLanguages: seq<(string, string)> := [
    ("es", "Spanish"), ("fr", "French"), ("de", "German"), ("it", "Italian"),
    ("pt", "Portuguese"), ("ru", "Russian"), ("zh", "Chinese"), ("ja", "Japanese"),
    ("ko", "Korean"), ("ar", "Arabic"), ("hi", "Hindi"), ("ur", "Urdu"),
    ("bn", "Bengali"), ("ta", "Tamil"), ("te", "Telugu"), ("nl", "Dutch"),
    ("el", "Greek"), ("he", "Hebrew"), ("sv", "Swedish"), ("pl", "Polish"),
    ("tr", "Turkish")]

  const ExampleUsage := "translate to es: Hello world"
  const FullListLink := "https://www.science.co.il/language/Codes.php"

  /** Two lower-case ASCII letters. */
  predicate IsLanguageCode(code: string) {
    |code| == 2 && 'a' <= code[0] <= 'z' && 'a' <= code[1] <= 'z'
  }

  function GetSupportedLanguages(): SupportedLanguages {
    SupportedLanguages(PopularLanguages, ExampleUsage, FullListLink)
  }

  /** The table has 21 entries, each code passes the router's two-letter
      check, and the example starts with the first code. */
  lemma SupportedLanguagesTable()
    ensures var r := GetSupportedLanguages();
      && |r.popularLanguages| == 21
      && (forall i :: 0 <= i < |r.popularLanguages| ==> IsLanguageCode(r.popularLanguages[i].0))
      && (forall i, j :: 0 <= i < j < |r.popularLanguages| ==>
            r.popularLanguages[i].0 != r.popularLanguages[j].0)
      && r.popularLanguages[0] == ("es", "Spanish")
      && StartsWith(r.exampleUsage, "translate to " + r.popularLanguages[0].0 + ":")
  {
    TableLength();
    CodesValid(0, 7);
    CodesValid(7, 14);
    CodesValid(14, 21);
    CodesDistinct();
    assert ExampleUsage[..16] == "translate to " + "es" + ":";
  }

  /** No code appears twice, so the sequence stands for a dictionary with
      21 keys. */
  lemma CodesDistinct()
    ensures forall i, j :: 0 <= i < j < |PopularLanguages| ==>
      PopularLanguages[i].0 != PopularLanguages[j].0
  {
    TableLength();
    DistinctStretches(0, 0);
    DistinctStretches(0, 7);
    DistinctStretches(0, 14);
    DistinctStretches(7, 7);
    DistinctStretches(7, 14);
    DistinctStretches(14, 14);
  }

  /** Two stretches of seven entries share no code. */
  lemma DistinctStretches(a: nat, b: nat)
    requires a % 7 == 0 && b % 7 == 0 && a <= b && b + 7 <= 21
    ensures forall i, j :: a <= i < a + 7 && b <= j < b + 7 && i < j ==>
      PopularLanguages[i].0 != PopularLanguages[j].0
  {
  }

  lemma TableLength()
    ensures |PopularLanguages| == 21
  {
  }

  /** One stretch of the table, small enough to check entry by entry. */
  lemma CodesValid(from: nat, to: nat)
    requires from + 7 == to <= 21
    ensures forall i :: from <= i < to ==> IsLanguageCode(PopularLanguages[i].0)
  {
  }

  // ---------------------------------------------------------------------
  // Sentiment

  /** The polarity margin around zero that counts as neutral. */
  const Threshold: real := 0.1

  datatype SentimentClass = Positive | Negative | Neutral

  /** The three buckets split the polarity line at the two thresholds, which
      themselves belong to the neutral bucket. */
  function Bucket(polarity: real): (b: SentimentClass)
    ensures b == Positive <==> polarity > Threshold
    ensures b == Negative <==> polarity < -Threshold
    ensures b == Neutral <==> -Threshold <= polarity <= Threshold
  {
    if polarity > Threshold then Positive
    else if polarity < -Threshold then Negative
    else Neutral
  }

  function Rank(b: SentimentClass): int {
    match b
    case Negative => -1
    case Neutral => 0
    case Positive => 1
  }

  /** A higher polarity never lands in a lower bucket. */
  lemma BucketMonotone(p: real, q: real)
    requires p <= q
    ensures Rank(Bucket(p)) <= Rank(Bucket(q))
  {
  }

  const PositiveLabel := "Positive \U{1F60A}"
  const NegativeLabel := "Negative \U{1F61E}"
  const NeutralLabel := "Neutral \U{1F610}"

  /** Each class has its own label. */
  function Label(b: SentimentClass): (r: string)
    ensures r == PositiveLabel <==> b == Positive
    ensures r == NegativeLabel <==> b == Negative
    ensures r == NeutralLabel <==> b == Neutral
  {
    assert PositiveLabel[0] != NegativeLabel[0] && PositiveLabel[0] != NeutralLabel[0];
    assert NegativeLabel[2] != NeutralLabel[2];
    match b
    case Positive => PositiveLabel
    case Negative => NegativeLabel
    case Neutral => NeutralLabel
  }

  const SentimentFailed := "Sentiment analysis failed: "

  /** `analyze_sentiment`: the label follows the polarity's bucket, the score
      is the polarity unchanged, and a failing scorer becomes an error whose
      text ends with the exception's. */
  function AnalyzeSentiment(caps: Capabilities, text: string): (r: Response)
    ensures caps.polarity(text).Returned? <==> r.SentimentResult?
    ensures r.SentimentResult? ==> r.score == caps.polarity(text).value
    ensures r.SentimentResult? ==>
      && (r.sentiment == PositiveLabel <==> r.score > Threshold)
      && (r.sentiment == NegativeLabel <==> r.score < -Threshold)
      && (r.sentiment == NeutralLabel <==> -Threshold <= r.score <= Threshold)
    ensures caps.polarity(text).Raised? ==>
      r == Failure(SentimentFailed + caps.polarity(text).detail)
  {
    match caps.polarity(text)
    case Returned(p) => SentimentResult(Label(Bucket(p)), p)
    case Raised(e) => Failure(SentimentFailed + e)
  }

  // ---------------------------------------------------------------------
  // Translation

  const ServiceUnavailable := "Translation service unavailable. Please try again later."

  /** `f"{code} ({name})"`. */
  function Describe(entry: (string, string)): string {
    entry.0 + " (" + entry.1 + ")"
  }

  /** The first five entries of `table` (all of them when there are fewer),
      described and joined with ", ". */
  function LanguageExamples(table: seq<(string, string)>): string {
    var n := if |table| < 5 then |table| else 5;
    Join(DescribeAll(table[..n]), ", ")
  }

  /** Entries after the fifth never appear in the examples. */
  lemma ExamplesUseFirstFive(table: seq<(string, string)>, rest: seq<(string, string)>)
    requires |table| == 5
    ensures LanguageExamples(table + rest) == LanguageExamples(table)
  {
    assert (table + rest)[..5] == table == table[..5];
  }

  function DescribeAll(table: seq<(string, string)>): (r: seq<string>)
    ensures |r| == |table|
    ensures forall i :: 0 <= i < |table| ==> r[i] == Describe(table[i])
  {
    if table == [] then [] else [Describe(table[0])] + DescribeAll(table[1..])
  }

  /** The error a raised exception turns into: a hint built from the table. */
  function TranslationFailed(): string {
    "Translation failed. Supported examples: "
      + LanguageExamples(GetSupportedLanguages().popularLanguages)
      + ". Type 'languages' for full list."
  }

  lemma FirstFiveLanguages()
    ensures PopularLanguages[..5] == [("es", "Spanish"), ("fr", "French"), ("de", "German"), ("it", "Italian"), ("pt", "Portuguese")]
  {
  }

  lemma DescribedFive()
    ensures DescribeAll(PopularLanguages[..5])
      == ["es (Spanish)", "fr (French)", "de (German)", "it (Italian)", "pt (Portuguese)"]
  {
    FirstFiveLanguages();
    DescribeFirstFive();
    var parts := DescribeAll(PopularLanguages[..5]);
    assert |parts| == 5;
  }

  lemma DescribeFirstFive()
    ensures Describe(("es", "Spanish")) == "es (Spanish)"
    ensures Describe(("fr", "French")) == "fr (French)"
    ensures Describe(("de", "German")) == "de (German)"
    ensures Describe(("it", "Italian")) == "it (Italian)"
    ensures Describe(("pt", "Portuguese")) == "pt (Portuguese)"
  {
  }

  lemma JoinFive(a: string, b: string, c: string, d: string, e: string, sep: string)
    ensures Join([a, b, c, d, e], sep) == a + sep + b + sep + c + sep + d + sep + e
  {
    assert [a, b, c, d, e][1..] == [b, c, d, e];
    assert [b, c, d, e][1..] == [c, d, e];
    assert [c, d, e][1..] == [d, e];
    assert [d, e][1..] == [e];
    assert Join([d, e], sep) == d + sep + e;
    assert Join([c, d, e], sep) == c + sep + (d + sep + e);
    assert Join([b, c, d, e], sep) == b + sep + (c + sep + (d + sep + e));
  }

  /** The first five entries of the table, described in table order. */
  lemma PopularExamples()
    ensures LanguageExamples(PopularLanguages) ==
      "es (Spanish)" + ", " + "fr (French)" + ", " + "de (German)" + ", "
      + "it (Italian)" + ", " + "pt (Portuguese)"
  {
    TableLength();
    DescribedFive();
    JoinFive("es (Spanish)", "fr (French)", "de (German)", "it (Italian)", "pt (Portuguese)", ", ");
  }

  /** The hint lists the first five languages of the table, in table order. */
  lemma TranslationFailedHint()
    ensures TranslationFailed() ==
      "Translation failed. Supported examples: "
      + ("es (Spanish)" + ", " + "fr (French)" + ", " + "de (German)" + ", "
         + "it (Italian)" + ", " + "pt (Portuguese)")
      + ". Type 'languages' for full list."
  {
    PopularExamples();
  }

  /** `translate_text`: English is returned unchanged without a service call;
      a non-200 HTTP status is the only way to "service unavailable"; a
      service-reported success returns the service's text, any other
      service status the secondary translator's; every exception gives the
      hint error. */
  function TranslateText(caps: Capabilities, text: string, toLang: string): (r: Response)
    ensures toLang == "en" ==> r == Translation(text, "en")
    ensures r.Translation? || r.Failure?
    ensures r.Translation? ==> r.language == toLang
    ensures r == Failure(ServiceUnavailable) <==>
      toLang != "en" && caps.translateRequest(text, toLang).Reply?
      && caps.translateRequest(text, toLang).statusCode != 200
    ensures r.Failure? ==> r.error == ServiceUnavailable || r.error == TranslationFailed()
  {
    assert TranslationFailed()[12] != ServiceUnavailable[12];
    if toLang == "en" then Translation(text, toLang)
    else match caps.translateRequest(text, toLang)
      case RequestRaised(_) => Failure(TranslationFailed())
      case Reply(status, body) =>
        if status != 200 then Failure(ServiceUnavailable)
        else match body
          case Raised(_) => Failure(TranslationFailed())
          case Returned(data) =>
            if data.responseStatus == 200 then Translation(data.translatedText, toLang)
            else match caps.fallbackTranslate(text, toLang)
              case Returned(t) => Translation(t, toLang)
              case Raised(_) => Failure(TranslationFailed())
  }

  /** With a 200 reply, the text returned is the service's own when it
      reports success and otherwise the secondary translator's. */
  lemma TranslateFromReply(caps: Capabilities, text: string, toLang: string, data: ReplyBody)
    requires toLang != "en"
    requires caps.translateRequest(text, toLang) == Reply(200, Returned(data))
    ensures data.responseStatus == 200 ==>
      TranslateText(caps, text, toLang) == Translation(data.translatedText, toLang)
    ensures data.responseStatus != 200 ==>
      TranslateText(caps, text, toLang) ==
        match caps.fallbackTranslate(text, toLang)
        case Returned(t) => Translation(t, toLang)
        case Raised(_) => Failure(TranslationFailed())
  {
  }

  /** Some step of the non-English path raises: the request, the decoding
      of a 200 reply, or the secondary translator it falls back to. */
  predicate RaisesOnTheWay(caps: Capabilities, text: string, toLang: string) {
    match caps.translateRequest(text, toLang)
    case RequestRaised(_) => true
    case Reply(status, body) =>
      status == 200 &&
      match body
      case Raised(_) => true
      case Returned(data) => data.responseStatus != 200 && caps.fallbackTranslate(text, toLang).Raised?
  }

  /** Every exception, whichever step raised it, gives the hint error, and
      the hint error arises in no other way. */
  lemma TranslateExceptions(caps: Capabilities, text: string, toLang: string)
    requires toLang != "en"
    ensures TranslateText(caps, text, toLang) == Failure(TranslationFailed())
      <==> RaisesOnTheWay(caps, text, toLang)
  {
  }

  /** Translating to English never consults a capability. */
  lemma EnglishIgnoresCapabilities(caps1: Capabilities, caps2: Capabilities, text: string)
    ensures TranslateText(caps1, text, "en") == TranslateText(caps2, text, "en")
  {
  }

  // ---------------------------------------------------------------------
  // Summarization

  const DefaultMaxLength := 150
  const DefaultMinLength := 50

  /** Longest input passed on unchanged, and what is kept of a longer one. */
  const MaxInputLength := 1024
  const KeptLength := 1000
  const TruncationMarker := "... [text truncated for demo]"

  /** The demo guard of `summarize_text`: a text longer than 1024 characters
      is cut to its first 1000 and marked; a shorter one is unchanged. */
  function TruncateForDemo(text: string): (r: string)
    ensures |text| <= MaxInputLength ==> r == text
    ensures |text| > MaxInputLength ==>
      |r| == KeptLength + |TruncationMarker| && r[..KeptLength] == text[..KeptLength]
      && r[KeptLength..] == TruncationMarker
    ensures |r| <= KeptLength + |TruncationMarker|
  {
    if |text| > MaxInputLength then text[..KeptLength] + TruncationMarker else text
  }

  /** A truncated text is long enough to be truncated again, to itself. */
  lemma TruncateIdempotent(text: string)
    ensures TruncateForDemo(TruncateForDemo(text)) == TruncateForDemo(text)
  {
    if |text| > MaxInputLength {
      var t := TruncateForDemo(text);
      assert |t| > MaxInputLength;
      assert t[..KeptLength] + TruncationMarker == t;
    }
  }

  const SummarizationFailed := "Summarization failed: "

  /** `summarize_text`: the model receives the truncated text and the two
      length bounds; its summary is returned, its exception reported. */
  function SummarizeText(caps: Capabilities, text: string, maxLength: int, minLength: int): (r: Response)
    ensures r.Summary? <==> caps.summarize(TruncateForDemo(text), maxLength, minLength).Returned?
    ensures r.Summary? ==> r.summary == caps.summarize(TruncateForDemo(text), maxLength, minLength).value
    ensures !r.Summary? ==>
      r == Failure(SummarizationFailed + caps.summarize(TruncateForDemo(text), maxLength, minLength).detail)
  {
    match caps.summarize(TruncateForDemo(text), maxLength, minLength)
    case Returned(s) => Summary(s)
    case Raised(e) => Failure(SummarizationFailed + e)
  }
}
