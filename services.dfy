/** The external capabilities the processor calls, passed in as values so that
    the decision logic around them can be stated for every possible outcome:
    the sentiment scorer, the remote translation service, the secondary
    translator and the loaded summarization model. */
module Services {

  /** What a call into a library does: it returns a value or raises an
      exception whose text is `detail` (`str(e)`). */
  datatype Attempt<T> = Returned(value: T) | Raised(detail: string)

  /** The fields of the translation service's decoded JSON reply that the
      processor reads: `responseStatus` and `responseData.translatedText`. */
  datatype ReplyBody = ReplyBody(responseStatus: int, translatedText: string)

  /** The outcome of the HTTP request to the translation service.
      `RequestRaised` is an exception from the request itself; `Reply` carries the HTTP status
      and the outcome of decoding the body (an exception there is `Raised`). */
  datatype HttpOutcome =
    | RequestRaised(detail: string)
    | Reply(statusCode: int, body: Attempt<ReplyBody>)

  /** The injected capabilities.
      - `polarity(text)`: the sentiment polarity of `text`;
      - `translateRequest(text, lang)`: the HTTP request for pair en|lang;
      - `fallbackTranslate(text, lang)`: the secondary translator;
      - `summarize(text, maxLength, minLength)`: the summarization model,
        including the extraction of the first result's summary text. */
  datatype Capabilities = Capabilities(
    polarity: string -> Attempt<real>,
    translateRequest: (string, string) -> HttpOutcome,
    fallbackTranslate: (string, string) -> Attempt<string>,
    summarize: (string, int, int) -> Attempt<string>)
}
