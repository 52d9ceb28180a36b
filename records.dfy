/** The records the translation pipeline passes between its stages. */
module Records {

  datatype Option<+T> = None | Some(value: T)

  /** Why one input line could not be translated. */
  datatype Error =
    | GetError(cause: string)     // the HTTP request itself failed
    | DecodeError(cause: string)  // the response body was not the expected JSON
    | NoTranslation               // the response decoded but carried no translation

  /** One input line, tagged with its zero-based position in the input (`sourceText`). */
  datatype SourceText = SourceText(line: int, text: string)

  /** What a worker made of one line (`result`): its position, the translated text
      and, when the line failed, the error. */
  datatype Result = Result(line: int, text: string, err: Option<Error>)
}
