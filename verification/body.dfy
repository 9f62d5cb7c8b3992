/** How a request body is chosen and prepared: the variant resolution of
    RequestBase, the per-variant checks before the body is written, and the
    conversion of a transcript's body text into the body fields. */
module Body {
  import opened Common
  import opened Text
  import opened UrlEncoding

  /** A multipart payload counts as present when it holds a part (Any()). */
  predicate HasParts(multipart: Option<seq<Section>>) {
    multipart.Some? && |multipart.value| > 0
  }

  /** A raw payload counts as present when it is non-null and non-empty. */
  predicate HasRawData(raw: Option<Bytes>) {
    raw.Some? && !raw.value.IsEmpty()
  }

  /** The PostParamsType RequestBase settles on. An explicit variant is kept;
      from `Unspecified`, each present source overrides the one before it, in
      the order paramStr, PostJson, PostRawData, PostMultiPart. */
  function ResolvePostType(t: PostType, paramStr: string, json: Option<JsonBody>,
                           raw: Option<Bytes>, multipart: Option<seq<Section>>): (r: PostType)
    ensures t != Unspecified ==> r == t
    ensures t == Unspecified ==> (r == FormData <==> HasParts(multipart))
    ensures t == Unspecified ==> (r == Raw <==> !HasParts(multipart) && HasRawData(raw))
    ensures t == Unspecified ==>
              (r == Json <==> !HasParts(multipart) && !HasRawData(raw) && json.Some?)
    ensures t == Unspecified ==>
              (r == UrlEncoded <==>
                 !HasParts(multipart) && !HasRawData(raw) && json.None? && paramStr != "")
    ensures r == Unspecified <==>
              t == Unspecified && !HasParts(multipart) && !HasRawData(raw) && json.None?
              && paramStr == ""
  {
    if t != Unspecified then t
    else
      var afterParams := if paramStr != "" then UrlEncoded else t;
      var afterJson := if json.Some? then Json else afterParams;
      var afterRaw := if HasRawData(raw) then Raw else afterJson;
      if HasParts(multipart) then FormData else afterRaw
  }

  /** What the request body carries. */
  datatype Payload =
    | TextPayload(encoding: string, text: string)   // PostEncoding.GetBytes(text)
    | BytesPayload(data: Bytes)                     // PostRawData as it is
    | MultipartPayload(sections: seq<Section>)      // the multipart content's own framing

  /** The body written for POST or PUT, and the Content-Type the request gets
      for it (None: the content type is not set here). */
  datatype WireBody = WireBody(contentType: Option<string>, payload: Payload)

  function FormContentType(encoding: string): string {
    "application/x-www-form-urlencoded;charset=" + encoding
  }

  function JsonContentType(encoding: string): string {
    "application/json;charset=" + encoding
  }

  /** The source field a variant reads is missing (null, or empty where the
      source tests for empty). */
  predicate SourceMissing(t: PostType, paramStr: string, json: Option<JsonBody>,
                          raw: Option<Bytes>, multipart: Option<seq<Section>>) {
    match t
    case UrlEncoded => paramStr == ""
    case FormData => multipart.None?
    case Raw => !HasRawData(raw)
    case Json => json.None?
    case Unspecified => false
  }

  /** The body RequestBase writes for POST and PUT: fails with ArgumentNull
      exactly when the variant's source field is missing, writes nothing for
      `Unspecified`, and otherwise sends that source. */
  function PostBody(t: PostType, paramStr: string, json: Option<JsonBody>, raw: Option<Bytes>,
                    multipart: Option<seq<Section>>, encoding: string)
    : (r: Result<Option<WireBody>, Fault>)
    ensures r.Err? <==> SourceMissing(t, paramStr, json, raw, multipart)
    ensures r.Err? ==> r.error == Reported(ArgumentNull)
    ensures r == Ok(None) <==> t == Unspecified
    ensures r.Ok? && t == UrlEncoded ==>
              r.value == Some(WireBody(Some(FormContentType(encoding)), TextPayload(encoding, paramStr)))
    ensures r.Ok? && t == Json ==>
              r.value.Some? && r.value.value.contentType == Some(JsonContentType(encoding))
              && r.value.value.payload.TextPayload?
              && (json.value.JsonString? ==> r.value.value.payload.text == json.value.text)
    ensures r.Ok? && t == Raw ==> r.value == Some(WireBody(None, BytesPayload(raw.value)))
    ensures r.Ok? && t == FormData ==> r.value == Some(WireBody(None, MultipartPayload(multipart.value)))
  {
    match t
    case UrlEncoded =>
      if paramStr == "" then Err(Reported(ArgumentNull))
      else Ok(Some(WireBody(Some(FormContentType(encoding)), TextPayload(encoding, paramStr))))
    case FormData =>
      if multipart.None? then Err(Reported(ArgumentNull))
      else Ok(Some(WireBody(None, MultipartPayload(multipart.value))))
    case Raw =>
      if !HasRawData(raw) then Err(Reported(ArgumentNull))
      else Ok(Some(WireBody(None, BytesPayload(raw.value))))
    case Json =>
      if json.None? then Err(Reported(ArgumentNull))
      else
        var text := match json.value case JsonString(s) => s case JsonObject(s) => s;
        Ok(Some(WireBody(Some(JsonContentType(encoding)), TextPayload(encoding, text))))
    case Unspecified => Ok(None)
  }

  /** A variant RequestBase resolves by itself always finds its source: the
      ArgumentNull failures come only from a variant the caller set while
      leaving its field empty. */
  lemma ResolvedVariantHasSource(paramStr: string, json: Option<JsonBody>, raw: Option<Bytes>,
                                 multipart: Option<seq<Section>>, encoding: string)
    ensures PostBody(ResolvePostType(Unspecified, paramStr, json, raw, multipart),
                     paramStr, json, raw, multipart, encoding).Ok?
  {
  }

  /** A url-encoded body made from the Params dictionary reads back, once
      split on '&' and '=' and percent-decoded, as exactly those pairs. */
  lemma FormBodyRoundTrip(params: seq<(string, string)>, encoding: string)
    requires params != []
    ensures var body := PostBody(ResolvePostType(Unspecified, ParamStr(params), None, None, None),
                                 ParamStr(params), None, None, None, encoding);
            body.Ok? && body.value.Some? && body.value.value.payload.TextPayload?
            && ParseParamStr(body.value.value.payload.text) == Some(params)
  {
    ParamStrRoundTrip(params);
  }

  /** The variant a transcript's Content-Type selects when none was set: each
      matching media type overrides the one before it, so json beats
      multipart, which beats url-encoded. An explicit variant is kept. */
  function SniffPostType(contentType: string, t: PostType): (r: PostType)
    ensures t != Unspecified ==> r == t
    ensures t == Unspecified ==> (r == Json <==> Contains(ToLower(contentType), "application/json"))
    ensures t == Unspecified ==>
              (r == FormData <==> !Contains(ToLower(contentType), "application/json")
                                  && Contains(ToLower(contentType), "multipart/form-data"))
    ensures t == Unspecified ==>
              (r == UrlEncoded <==> !Contains(ToLower(contentType), "application/json")
                                    && !Contains(ToLower(contentType), "multipart/form-data")
                                    && Contains(ToLower(contentType), "application/x-www-form-urlencoded"))
    ensures r != Raw || t == Raw
  {
    if t != Unspecified then t
    else
      var lower := ToLower(contentType);
      var afterForm := if Contains(lower, "application/x-www-form-urlencoded") then UrlEncoded else t;
      var afterMultipart := if Contains(lower, "multipart/form-data") then FormData else afterForm;
      if Contains(lower, "application/json") then Json else afterMultipart
  }

  /** The field a transcript's body text is stored in. */
  datatype BodyField = RawField(data: Bytes) | JsonField(json: JsonBody)

  /** The body-related parameters after a transcript's body is converted. */
  datatype TranscriptBody = TranscriptBody(
    contentType: Option<string>,   // the ContentType header afterwards
    postType: PostType,
    encoding: string,
    field: BodyField)

  /** The PostEncoding a Content-Type selects: the text after "charset=" up to
      any further "charset=". */
  function CharsetOf(contentType: Option<string>, encoding: string): string {
    if contentType.Some? && Contains(contentType.value, "charset=")
    then PieceAfterFirst(contentType.value, "charset=")
    else encoding
  }

  /** Converts the body text of a non-GET transcript into the body fields.
      url-encoded and multipart bodies become raw bytes; url-encoded and json
      bodies rewrite the Content-Type to name the charset; json bodies are kept
      as text. The fallback for an unspecified variant tests the misspelt
      "applition/json". */
  function ConvertTranscriptBody(contentType: Option<string>, t: PostType, encoding: string,
                                 body: string): (r: TranscriptBody)
    ensures r.encoding == CharsetOf(contentType, encoding)
    ensures r.postType in {Raw, Json, Unspecified}
    ensures r.postType == Json <==> (t == Json || (t == Unspecified && contentType.Some?
                                     && SniffPostType(contentType.value, t) == Json))
    ensures r.field.JsonField? ==> r.field == JsonField(JsonString(body))
    ensures r.field.RawField? ==> r.field == RawField(Encoded(r.encoding, body))
    ensures r.postType == Json ==> r.field.JsonField? && r.contentType == Some(JsonContentType(r.encoding))
    ensures r.postType == Raw ==> r.field.RawField?
    ensures r.contentType != contentType ==>
              r.contentType == Some(JsonContentType(r.encoding))
              || r.contentType == Some(FormContentType(r.encoding))
    ensures var v := if contentType.Some? then SniffPostType(contentType.value, t) else t;
            v == UrlEncoded ==> r.contentType == Some(FormContentType(r.encoding)) && r.postType == Raw
                                && r.field.RawField?
    ensures var v := if contentType.Some? then SniffPostType(contentType.value, t) else t;
            (v == Raw || v == FormData) ==> r.contentType == contentType && r.postType == Raw && r.field.RawField?
    ensures var v := if contentType.Some? then SniffPostType(contentType.value, t) else t;
            v == Json ==> r.contentType == Some(JsonContentType(r.encoding)) && r.postType == Json
    ensures var v := if contentType.Some? then SniffPostType(contentType.value, t) else t;
            v == Unspecified ==>
              && r.contentType == contentType && r.postType == Unspecified
              && (r.field.JsonField? <==> contentType.Some? && Contains(ToLower(contentType.value), "applition/json"))
  {
    var enc := CharsetOf(contentType, encoding);
    var variant := if contentType.Some? then SniffPostType(contentType.value, t) else t;
    match variant
    case Raw => TranscriptBody(contentType, Raw, enc, RawField(Encoded(enc, body)))
    case UrlEncoded => TranscriptBody(Some(FormContentType(enc)), Raw, enc, RawField(Encoded(enc, body)))
    case FormData => TranscriptBody(contentType, Raw, enc, RawField(Encoded(enc, body)))
    case Json => TranscriptBody(Some(JsonContentType(enc)), Json, enc, JsonField(JsonString(body)))
    case Unspecified =>
      if contentType.Some? && Contains(ToLower(contentType.value), "applition/json")
      then TranscriptBody(contentType, Unspecified, enc, JsonField(JsonString(body)))
      else TranscriptBody(contentType, Unspecified, enc, RawField(Encoded(enc, body)))
  }

  /** A body converted from a transcript is always sendable: on a request with
      no other body source, RequestBase resolves a variant whose field is
      present, and the payload carries the transcript's body text. */
  lemma TranscriptBodyIsSent(contentType: Option<string>, t: PostType, encoding: string, body: string)
    requires body != ""
    ensures var c := ConvertTranscriptBody(contentType, t, encoding, body);
            var json := if c.field.JsonField? then Some(c.field.json) else None;
            var raw := if c.field.RawField? then Some(c.field.data) else None;
            var w := PostBody(ResolvePostType(c.postType, "", json, raw, None), "", json, raw, None,
                              c.encoding);
            w.Ok? && w.value.Some?
            && (w.value.value.payload == TextPayload(c.encoding, body)
                || w.value.value.payload == BytesPayload(Encoded(c.encoding, body)))
  {
  }
}
