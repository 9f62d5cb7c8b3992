/** Values shared by every part of the request library model. */
module Common {

  datatype Option<+T> = None | Some(value: T)

  datatype Result<+T, +E> = Ok(value: T) | Err(error: E)

  /** An operation that yields no value and may fail. */
  datatype Outcome<+E> = Pass | Fail(error: E)

  /** The library's ErrorType enumeration, in declaration order. */
  datatype ErrorType =
    | ArgumentNull
    | HTTPStatusCodeError
    | HTTPRequestTimeout
    | HTTPRequestHeaderError
    | UrlParseError
    | UserCancelled
    | Other
    | HTTPRequestError

  /** Runtime exceptions that escape the library without an ErrorType. */
  datatype SystemFault =
    | IndexOutOfRange      // indexing a list or array past its end
    | DuplicateKey         // Dictionary.Add with a key already present
    | NullOrEmptyUrl       // ArgumentNullException for an empty request URL
    | LevelOutOfRange      // ArgumentOutOfRangeException of the logger

  /** What a failed call raises: a library exception carrying its ErrorType,
      or a runtime exception the library does not catch. */
  datatype Fault = Reported(tag: ErrorType) | Unhandled(cause: SystemFault)

  /** PostType: the body variant. The source spells these json,
      x_www_form_urlencoded, form_data, raw and none. */
  datatype PostType = Json | UrlEncoded | FormData | Raw | Unspecified

  newtype byte = x: int | 0 <= x < 256

  /** The content of a byte[] body field: bytes the caller supplied, or the
      bytes an encoding gives for a text (Encoding.GetBytes). */
  datatype Bytes = Literal(data: seq<byte>) | Encoded(encoding: string, text: string)
  {
    /** A byte array of length 0; GetBytes yields no bytes exactly for "". */
    predicate IsEmpty() {
      match this
      case Literal(d) => d == []
      case Encoded(_, t) => t == ""
    }
  }

  /** The value of PostJson: a string is sent verbatim; any other object is
      represented by the text that JsonConvert.SerializeObject gives for it. */
  datatype JsonBody = JsonString(text: string) | JsonObject(serialized: string)

  /** One part of a MultipartFormDataContent; its framing is not modelled. */
  datatype Section = Section(name: string, content: seq<byte>)

  /** UTF8Encoding, the default PostEncoding and response encoding, by name. */
  const Utf8Name: string := "utf-8"
}
