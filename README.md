# NLPProcessor command router, modelled in Dafny

This project models `NLPProcessor` from `chatbot_core.py`, the core of a small
chatbot. The processor has two parts:

- **The router.** `process_command` strips the user's text and classifies it by
  the first of five tests on its lower-cased form:
  1. a language keyword;
  2. the prefixes `translate to `, `analyze sentiment:` and `summarize:`;
  3. a help keyword.

  It then extracts the command's arguments from the stripped text, which is not
  lower-cased, and answers with one of three things:
  - a static table;
  - a format error;
  - the response of one handler.

  Input that passes none of the tests gets a default suggestion.
- **The handlers:**
  - `get_supported_languages`;
  - `analyze_sentiment`, which buckets a polarity at ±0.1;
  - `translate_text`, which short-circuits English and maps the translation
    service's outcome to a response;
  - `summarize_text`, which truncates long input before calling the model.

The model is purely functional, like the source. Each external library call is
an injected capability. These are the fields of `Services.Capabilities`:

| capability | models |
|---|---|
| `polarity` | the sentiment scorer |
| `translateRequest` | the HTTP request to the translation service and the decoding of its reply |
| `fallbackTranslate` | the secondary translator |
| `summarize` | the summarization model |

Every capability may return a value or raise an exception, and the contracts
cover both outcomes of each call. A call that never returns is not modelled
(see "Left out").

Modules, one per file:

- `Text` (`text.dfy`) models the `str` operations the router uses on `seq<char>`:
  - `strip()`, with Python 3's whitespace set;
  - `lower()`;
  - `startswith`;
  - `replace`, which replaces every occurrence in one left-to-right pass;
  - `split(':', 1)`.
- `Services` (`services.dfy`) holds the capabilities and the outcome datatypes.
- `Responses` (`responses.dfy`) has one variant per dictionary shape the
  processor returns. `Keys` gives each shape's dictionary keys.
- `Handlers` (`handlers.dfy`) covers:
  - the language table, kept as an ordered sequence because a Python dict keeps
    insertion order and the error hint depends on it;
  - sentiment bucketing;
  - translation;
  - summarization.
- `Router` (`router.dfy`) holds the rest of the router:
  - `Parse` maps the input to a `Command`;
  - `Dispatch` maps a `Command` to a `Response`;
  - `ProcessCommand` is the two combined;
  - the lemmas about routing.

The five tests are pairwise exclusive (`Router.ConditionsExclusive`), so the
order in which the source applies them never changes which branch fires. The
quirks of the source are kept:

- Only the lower-case and capitalised spellings of a keyword are removed, so
  `SUMMARIZE: x` is summarized with its keyword still in the text.
- Removal deletes every occurrence of the keyword, not just the leading one, so
  `summarize: a summarize: b` is summarized as `a  b`
  (`Router.SummarizeKeywordRecurs`).
- Stripping happens before the prefix test, so `translate to ` alone gets the
  default reply.

## Model

| member | source | states |
|---|---|---|
| Text.IsSpace | chatbot_core.py:107 | The whitespace set of Python 3's `str.strip()`: space, `\t` to `\r`, U+001C to U+001F, U+0085, U+00A0, U+1680, U+2000 to U+200A, U+2028, U+2029, U+202F, U+205F and U+3000. It has no contract of its own. |
| Text.Strip | chatbot_core.py:107 | `strip()`: the result is a slice of the input. Everything cut from either end is whitespace, and the result begins and ends with non-whitespace. |
| Text.StripIdempotent | chatbot_core.py:107 | Stripping twice is stripping once. |
| Text.StripPadded | chatbot_core.py:107 | Stripping whitespace-padding around a stripped core returns exactly that core. |
| Text.LowerChar | chatbot_core.py:110 | An ASCII upper-case letter becomes the lower-case letter at the same alphabet position. Every other character is unchanged. |
| Text.Lower | chatbot_core.py:110 | `lower()`: the same length, and each character is lowered on its own by `Text.LowerChar`. |
| Text.IndexOf | chatbot_core.py:120 | `None` exactly when the character is absent. Otherwise it gives the position of its first occurrence. |
| Text.SplitFirst | chatbot_core.py:120-121 | `split(':', 1)` has two parts exactly when there is a colon. The parts rebuild the input around the first colon, and the left part holds no colon. |
| Text.SplitAt | chatbot_core.py:120 | Splitting happens at the first occurrence of the separator. |
| Text.ReplaceAll | chatbot_core.py:122 | `replace`: a text without the pattern is unchanged, and deleting never lengthens the text. |
| Text.DeleteHead | chatbot_core.py:135 | Deleting a keyword that heads the input and does not recur leaves the rest of the input. |
| Text.StartsWith | chatbot_core.py:119 | `str.startswith`, also used at lines 134 and 141. It has no contract of its own; `Router.RoutingOrder`, `Router.KeywordsExclusive` and `Text.KeywordLed` state what the prefix tests decide. |
| Text.StripLeading | chatbot_core.py:107 | Whitespace in front of a text that starts with non-whitespace is stripped away with the rest. |
| Text.KeywordLed | chatbot_core.py:134-142 | Stripping a stripped keyword followed by a text keeps the keyword at the head. What follows it is a prefix of the text and strips to the same core as the text. |
| Text.InfixOfPrefix | chatbot_core.py:135 | An occurrence of a pattern in a prefix of a text is an occurrence in the text. |
| Text.Join | chatbot_core.py:87 | `sep.join(parts)`. It has no contract of its own; `Handlers.JoinFive` states its five-part form, the only join the processor performs. |
| Text.ReplaceHead | chatbot_core.py:135 | `replace` replaces an occurrence heading the text and goes on scanning behind it. |
| Text.ReplaceSkipsFree | chatbot_core.py:135 | `replace` copies a stretch without the pattern's first character unchanged and goes on scanning behind it. |
| Text.NoInfixBehindFree | chatbot_core.py:135 | A stretch without the pattern's first character, followed by a text without the pattern, holds no occurrence. |
| Text.AbsentCharNoInfix | chatbot_core.py:142 | A text lacking one character of a keyword does not contain the keyword. |
| Responses.Keys | chatbot_core.py:105-164 | A dictionary has an `error` key exactly when the response is a failure, and then it has no other key. |
| Handlers.GetSupportedLanguages | chatbot_core.py:17-45 | The constant table, the usage example and the reference link. It has no contract of its own; `Handlers.SupportedLanguagesTable` and `Handlers.CodesDistinct` state its properties. |
| Handlers.SupportedLanguagesTable | chatbot_core.py:17-45 | The table has 21 entries. Each code is two lower-case letters, no code appears twice, the first entry is `es`/Spanish, and the example usage starts with `translate to es:`. |
| Handlers.CodesDistinct | chatbot_core.py:20-42 | No two entries of the language table share a code, so the ordered sequence stands for the dictionary without loss. |
| Handlers.Label | chatbot_core.py:54-58 | The three labels are distinct: each label is produced by exactly one bucket. |
| Handlers.Bucket | chatbot_core.py:53-58 | Positive exactly above 0.1 and Negative exactly below -0.1. Neutral exactly in [-0.1, 0.1], the thresholds included. |
| Handlers.BucketMonotone | chatbot_core.py:53-58 | A higher polarity never falls into a lower bucket. |
| Handlers.AnalyzeSentiment | chatbot_core.py:47-60 | A result exactly when the scorer returns. The score is the polarity unchanged, and the label is the polarity's bucket in both directions. A raised exception gives `Sentiment analysis failed: ` followed by its text. |
| Handlers.TranslateText | chatbot_core.py:62-88 | English comes back unchanged. Every response is a translation tagged with the target language, or an error. "Service unavailable" arises exactly for a non-English target whose HTTP status is not 200. No other error than that one and the hint exists. |
| Handlers.TranslateFromReply | chatbot_core.py:72-81 | With a 200 reply, the text is the service's own when it reports status 200. Otherwise it is the secondary translator's, or the hint error when that translator raises. |
| Handlers.TranslateExceptions | chatbot_core.py:85-88 | For a non-English target, the hint error is returned exactly when the request, the decoding or the fallback raises. |
| Handlers.EnglishIgnoresCapabilities | chatbot_core.py:66-67 | Translating to English consults no capability. |
| Handlers.PopularExamples | chatbot_core.py:86-87 | The first five table entries, described as `code (name)` and joined by `, `, form exactly `es (Spanish), fr (French), de (German), it (Italian), pt (Portuguese)`. |
| Handlers.TranslationFailedHint | chatbot_core.py:86-88 | The hint error's full text, with those five languages in table order. |
| Handlers.LanguageExamples | chatbot_core.py:87 | The first five entries (or all, when fewer), described and joined by `, `. It has no contract of its own; `Handlers.ExamplesUseFirstFive` and `Handlers.PopularExamples` state its properties. |
| Handlers.ExamplesUseFirstFive | chatbot_core.py:87 | Entries after the fifth never appear in the examples. |
| Handlers.TranslationFailed | chatbot_core.py:88 | The hint text around the examples. It has no contract of its own; `Handlers.TranslationFailedHint` states its full text. |
| Handlers.Describe | chatbot_core.py:87 | `f"{code} ({name})"`. It has no contract of its own; `Handlers.DescribeAll` and `Handlers.DescribeFirstFive` state its properties. |
| Handlers.DescribeAll | chatbot_core.py:87 | The comprehension gives one description per entry, position by position. |
| Handlers.TruncateForDemo | chatbot_core.py:94-95 | Text of at most 1024 characters is unchanged. Longer text becomes its first 1000 characters followed by the marker, so its length is 1000 plus the marker's length. |
| Handlers.TruncateIdempotent | chatbot_core.py:94-95 | Truncating a truncated text changes nothing. |
| Handlers.SummarizeText | chatbot_core.py:90-103 | The model receives the truncated text and both bounds. Its summary is returned when it returns, and its exception becomes `Summarization failed: ` followed by the exception's text. |
| Router.ProcessCommand | chatbot_core.py:105-164 | `process_command` as `Router.Parse` followed by `Router.Dispatch`. It has no contract of its own; the router lemmas below state its behaviour branch by branch. |
| Router.Dispatch | chatbot_core.py:111-164 | The response for each command. It has no contract of its own; `Router.BranchResponses` and `Router.CapabilitiesUnused` state its properties. |
| Router.Classify | chatbot_core.py:110-164 | The classification of a stripped input: a translate command carries a stripped two-character code and a stripped text, and a sentiment or summary payload is non-empty and stripped. |
| Router.Parse | chatbot_core.py:105-145 | A translate command carries a stripped two-character code and a stripped text. A sentiment or summary payload is non-empty and stripped. |
| Router.ParseTranslate | chatbot_core.py:119-131 | The translate branch ends in a translation, the format error or the code error. The format error comes exactly when the input has no colon. |
| Router.ParseSentimentArgs | chatbot_core.py:134-138 | The sentiment branch ends in a sentiment command with a non-empty stripped text, or in the usage error. |
| Router.ParseSummarizeArgs | chatbot_core.py:141-145 | The summarize branch ends in a summarize command with a non-empty stripped text, or in the usage error. |
| Router.KeywordRemoved | chatbot_core.py:135 | The text left after removing the lower-case and then the capitalised keyword spelling is stripped. The same removal gives the code (line 122) and the summary payload (line 142). |
| Router.LanguagePart | chatbot_core.py:122 | The code text is stripped. The removal of `translate to ` and `Translate to ` is the body, through `Router.KeywordRemoved`. `Router.WellFormedTranslate` states the code it gives for a well-formed command. |
| Router.ClassifySentiment | chatbot_core.py:134-138 | An input whose lower-cased form starts with `analyze sentiment:` is a sentiment command carrying the keyword-removed payload when that is non-empty, and the usage error otherwise. |
| Router.ClassifySummarize | chatbot_core.py:141-145 | The same for `summarize:`, with a summarize command. |
| Router.PayloadAfterKeyword | chatbot_core.py:135 | For a keyword followed by a text in which neither spelling recurs, the payload is the stripped text. |
| Router.RoutingOrder | chatbot_core.py:105-164 | The branch taken is the first of the five tests on the stripped, lower-cased input that holds, and the default branch when none holds. |
| Router.ConditionsExclusive | chatbot_core.py:110-148 | No input passes two of the five tests. |
| Router.KeywordsExclusive | chatbot_core.py:110-148 | The same, stated test against test: the keyword sets and the three prefixes exclude each other. |
| Router.BranchResponses | chatbot_core.py:105-164 | The response shape for each branch: <br>• the languages dictionary, with 21 entries and its four keys; <br>• a translation or an error; <br>• a sentiment or an error; <br>• a summary or an error; <br>• the four-entry help table with its two keys; <br>• the suggestion, with `response` and `suggestion` and no `error` key. |
| Router.CapabilitiesUnused | chatbot_core.py:119-145 | Handlers are reached only through the three handler commands. Format errors, static answers and English translations give the same response whatever the capabilities do. |
| Router.LanguagesAnyCasing | chatbot_core.py:107-116 | Any casing of a language keyword, wrapped in any whitespace, gives the 21-entry table, the example and the reference link. |
| Router.HelpAnyCasing | chatbot_core.py:148-157 | Any casing of `help`, `?` or `commands`, wrapped in any whitespace, gives the four-entry help table. |
| Router.TranslateExtraction | chatbot_core.py:120-129 | After `translate to ` in any casing, the input splits at its first colon. The code is the stripped left part with every `translate to ` and every `Translate to ` removed, and the text is the stripped right part. No other casing is removed, so `TRANSLATE TO fr: x` keeps its keyword in the code and gets the code error. A code whose length is not 2 is an error. |
| Router.TranslateWithoutColon | chatbot_core.py:119-131 | Without a colon, the answer is the "Please use format" error. |
| Router.TranslateBadCode | chatbot_core.py:120-127 | With a colon but a code whose length is not 2, the answer is the two-letter-code error. |
| Router.WellFormedTranslate | chatbot_core.py:119-129 | `translate to ` followed by two lower-case letters, a colon and any text is a translation to that code of the stripped text. |
| Router.TableCodesTranslate | chatbot_core.py:119-129 | Every code of the language table is accepted by the router. |
| Router.TranslateToEnglish | chatbot_core.py:66-67 | `translate to en:` gives back the stripped text, tagged `en`. |
| Router.FrenchExample | chatbot_core.py:118-123 | `translate to fr: Hello world` is a translation into `fr` of `Hello world`. |
| Router.ExampleUsageTranslates | chatbot_core.py:43 | The usage example in the languages answer is itself a well-formed command, translating `Hello world` into `es`. |
| Router.FrenchServiceUnavailable | chatbot_core.py:82-83 | When the French example's request returns a non-200 status, the answer is "service unavailable". |
| Router.BareTranslateKeyword | chatbot_core.py:107-119 | `translate to ` alone loses its trailing space to stripping and gets the default suggestion. |
| Router.ParseSentiment | chatbot_core.py:107-138 | Any whitespace, then `analyze sentiment:`, then a text in which neither keyword spelling recurs, parses to the usage error when the text strips to nothing and to a sentiment command on the stripped text otherwise. |
| Router.SentimentCommand | chatbot_core.py:107-138 | Any whitespace, then `analyze sentiment:`, then a text gives the usage error when the stripped text is empty, without calling the scorer. Otherwise it gives the analysis of the stripped text. |
| Router.SentimentExample | chatbot_core.py:134-138 | `analyze sentiment: I love this!` with a polarity above 0.1 is Positive, with the polarity as its score. |
| Router.ParseSummarize | chatbot_core.py:107-145 | The same for `summarize:`, with a summarize command. |
| Router.SummarizeCommand | chatbot_core.py:107-145 | Any whitespace, then `summarize:`, then a text gives the usage error when the stripped text is empty, without calling the model. Otherwise it gives the summary of the stripped text with bounds 150 and 50. |
| Router.BothOccurrencesRemoved | chatbot_core.py:142 | For `summarize:`, a stretch without `s` or `S`, `summarize:` again and a text in which neither spelling recurs, both removals leave the stretch and the text, stripped. |
| Router.SummarizeKeywordRecurs | chatbot_core.py:141-145 | `replace` deletes every occurrence, not only the heading one: such a stripped input parses to a summarize command on the stripped stretch and text, or to the usage error when they strip to nothing. |
| Router.RecurringParse | chatbot_core.py:141-145 | `summarize: a summarize: b` parses to a summarize command on `a  b`: `replace` removes the recurring keyword too. |
| Router.RecurringSummarize | chatbot_core.py:141-144 | `summarize: a summarize: b` is summarized as `a  b`, with both keywords gone. |
| Router.SummarizeNothing | chatbot_core.py:141-145 | `summarize:` alone gives the usage error text. |
| Router.KeywordKeptInOtherCasing | chatbot_core.py:141-142 | A stripped input that matches `summarize:` only in another casing is summarized whole, keyword included. |
| Router.UpperCaseSummarize | chatbot_core.py:141-144 | `SUMMARIZE: x` is summarized as `SUMMARIZE: x`. |

## Left out

- `app.py` (the Flask routes, template rendering, `.env` loading, the
  empty-message guard and the outer `try`) is web plumbing around
  `process_command`. It is not part of this model.
- The constructor's model loading is left out. So is the summarization
  pipeline's inference, whose result is the `summarize` capability (the first
  result's `summary_text`).
- TextBlob's polarity and `blob.translate` are left out. They are the
  `polarity` and `fallbackTranslate` capabilities.
- The translation service's URL construction, HTTP request and JSON decoding
  are left out. Their outcome is an `HttpOutcome` input: an exception from the
  request, or a status together with a decoded body or a decoding exception. A
  missing `responseStatus`, or a missing `translatedText` when `responseStatus`
  is 200, is a decoding exception. A reply whose `responseStatus` is not 200
  needs no `responseData` and reaches the fallback translator.
  `responseStatus` is an integer.
- A request that never returns (`requests.get` is called without a time-out)
  is not modelled: every capability either returns or raises.
- Exception texts (`str(e)`) are opaque strings.
- `float(polarity)` is a `real`, with no floating-point rounding.
- `print`, `warnings` and the global instance created at import are left out.
- `Text.Lower`: lowers ASCII letters only. Python's `lower()` covers all of
  Unicode and can change a string's length. No branch decision depends on the
  difference. The only non-ASCII characters that lower to an ASCII letter are
  KELVIN SIGN (U+212A, to `k`) and LATIN CAPITAL LETTER I WITH DOT ABOVE
  (U+0130, to `i` followed by U+0307). No keyword contains `k`, and `i`
  followed by U+0307 matches no keyword character. So every keyword and
  prefix test on the full `lower()` agrees with the test on `Text.Lower`.
- The constant `True` values of `languages` and `help` are implied by the
  response variants rather than stored.
- `Text.ReplaceAll`: its contract states only that a text without the pattern
  is unchanged and that deletion never lengthens the text. The left-to-right
  replacement of every occurrence is its body. `Text.DeleteHead`,
  `Text.ReplaceHead` and `Text.ReplaceSkipsFree` state the steps of the scan
  that the router's lemmas use.
- `Router.KeywordRemoved`: its contract states only that the result is
  stripped. The removal of every keyword occurrence is the body's
  `Text.ReplaceAll`. `Router.PayloadAfterKeyword` states the case without
  recurrence, and `Router.BothOccurrencesRemoved` a case with recurrence.
- `Router.LanguagePart`: its contract states only that the code text is
  stripped. The two removals are the body's `Router.KeywordRemoved`.
  `Router.TranslateExtraction` and `Router.WellFormedTranslate` state the
  code the router then checks.
- `Router.SentimentCommand`: stated for a text after the keyword with no
  further occurrence of either keyword spelling. An input where the keyword
  recurs loses every occurrence; that case follows from
  `Router.ClassifySentiment` and `Text.ReplaceAll` but has no closed form here.
- `Router.SummarizeCommand`: stated with the same restriction as
  `Router.SentimentCommand`. `Router.SummarizeKeywordRecurs` covers one
  recurrence behind a stretch without `s` or `S`.
