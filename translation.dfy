/** `translate`: one call of the translation service for one line. The HTTP request
    and the JSON decoding are not modelled; what they came to is the `Reply`. */
module Translation {
  import opened Records

  /** How the request and the decoding of its body ended. */
  datatype Reply =
    | GetFailed(cause: string)           // http.Get returned an error and no response
    | RedirectRefused(cause: string)     // http.Get returned an error with a response:
                                         // the redirect check failed (too many redirects)
    | DecodeFailed(cause: string)        // the body did not decode
    | Decoded(translations: seq<string>) // data.translations of the decoded body

  /** How a call of `translate` as written ends: it returns, or the goroutine panics
      (and with it the whole process). */
  datatype Exit = Returned(result: Result) | Panicked

  /** `translate` as written. The deferred `resp.Body.Close()` is evaluated before the
      error check, so a request that fails without a response dereferences the nil
      response; and the first translation is taken without checking that there is one. */
  function TranslateAsWritten(s: SourceText, reply: Reply): (x: Exit)
    ensures x.Returned? ==> x.result.line == s.line
    ensures x.Returned? && x.result.err.Some? ==> x.result.text == ""
  {
    match reply
    case GetFailed(_) => Panicked
    case RedirectRefused(cause) => Returned(Result(s.line, "", Some(GetError(cause))))
    case DecodeFailed(cause) => Returned(Result(s.line, "", Some(DecodeError(cause))))
    case Decoded(ts) => if ts == [] then Panicked else Returned(Result(s.line, ts[0], None))
  }

  /** `translate` with both failures recorded in the result, as the error path intends:
      every line yields a result tagged with its own position. */
  function Translate(s: SourceText, reply: Reply): (r: Result)
    ensures r.line == s.line
    ensures r.err.None? <==> reply.Decoded? && reply.translations != []
    ensures r.err.None? ==> r.text == reply.translations[0]
    ensures r.err.Some? ==> r.text == ""
    ensures reply.GetFailed? || reply.RedirectRefused? ==> r.err == Some(GetError(reply.cause))
    ensures reply.DecodeFailed? ==> r.err == Some(DecodeError(reply.cause))
    ensures reply == Decoded([]) ==> r.err == Some(NoTranslation)
  {
    match reply
    case GetFailed(cause) => Result(s.line, "", Some(GetError(cause)))
    case RedirectRefused(cause) => Result(s.line, "", Some(GetError(cause)))
    case DecodeFailed(cause) => Result(s.line, "", Some(DecodeError(cause)))
    case Decoded(ts) =>
      if ts == [] then Result(s.line, "", Some(NoTranslation)) else Result(s.line, ts[0], None)
  }

  /** A request that fails without a response kills the process instead of producing
      a result. */
  lemma GetErrorPanics(s: SourceText, cause: string)
    ensures TranslateAsWritten(s, GetFailed(cause)) == Panicked
  {
  }

  /** A reply without translations (`{"data": {"translations": []}}`, or `{}`) kills the
      process instead of producing a result. */
  lemma EmptyTranslationsPanics(s: SourceText)
    ensures TranslateAsWritten(s, Decoded([])) == Panicked
  {
  }

  /** The two panics are the only difference between the code as written and the
      corrected `Translate`. */
  lemma TranslateAgreesWhereNoPanic(s: SourceText, reply: Reply)
    ensures TranslateAsWritten(s, reply).Panicked? <==> reply.GetFailed? || reply == Decoded([])
    ensures TranslateAsWritten(s, reply).Returned? ==>
              TranslateAsWritten(s, reply).result == Translate(s, reply)
  {
  }
}
