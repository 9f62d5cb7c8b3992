/** The request parameters object and the two steps that work on it in place:
    loading a raw transcript into it (XHRBase) and preparing a request from
    it (RequestBase up to the point where the transport takes over). */
module Requests {
  import opened Common
  import opened Text
  import opened UrlEncoding
  import opened Headers
  import Body
  import opened GetUrl
  import opened Transcript

  /** A request ready for the transport: method, URL, both header tables and
      the body written for POST and PUT. */
  datatype Prepared = Prepared(verb: string, url: string, header: map<HttpRequestHeader, string>,
                               custom: map<string, string>, body: Option<Body.WireBody>)

  /** The head of a transcript, read with the header-line loop. */
  method ReadHead(data: string) returns (r: Result<Head, Fault>)
    ensures r == ParseHead(data)
  {
    var sections := SplitSectionsFixed(data);
    if sections.Err? {
      return Err(sections.error);
    }
    var line := ParseRequestLine(sections.value.requestLine);
    if line.Err? {
      return Err(line.error);
    }
    var routed := RouteHeaderLines(sections.value.headerLines);
    if routed.Err? {
      RoutesConsistent(sections.value.headerLines);
      RoutingSpec(Routes(sections.value.headerLines));
      return Err(routed.error);
    }
    r := Ok(Head(line.value.verb, line.value.target, routed.value, sections.value.body));
  }

  /** ReqParams: the caller's request settings. Header and CustomHeader are
      dictionaries; Params keeps its insertion order, which decides the order
      of the encoded pairs. */
  class ReqParams {
    var header: map<HttpRequestHeader, string>
    var customHeader: map<string, string>
    var params: seq<(string, string)>
    var postRawData: Option<Bytes>
    var postJson: Option<JsonBody>
    var postMultiPart: Option<seq<Section>>
    var postEncoding: string
    var postParamsType: PostType
    var isUseHtmlMetaEncoding: bool
    var isThrowErrorForStatusCode: bool
    var isThrowErrorForTimeout: bool
    var timeout: int
    var readBufferSize: int

    /** The defaults of a new ReqParams. */
    constructor ()
      ensures header == map[] && customHeader == map[] && params == []
      ensures postRawData.None? && postJson.None? && postMultiPart.None?
      ensures postEncoding == Utf8Name && postParamsType == Unspecified
      ensures isUseHtmlMetaEncoding && isThrowErrorForStatusCode && isThrowErrorForTimeout
      ensures timeout == 500 && readBufferSize == 1024
    {
      header := map[];
      customHeader := map[];
      params := [];
      postRawData := None;
      postJson := None;
      postMultiPart := None;
      postEncoding := Utf8Name;
      postParamsType := Unspecified;
      isUseHtmlMetaEncoding := true;
      isThrowErrorForStatusCode := true;
      isThrowErrorForTimeout := true;
      timeout := 500;
      readBufferSize := 1024;
    }

    /** XHRBase's work on the parameters: the transcript's header tables
        replace Header and CustomHeader (even when the host check then fails),
        and a body is converted into the body fields. Returns the method and
        URL the request is then sent with. */
    method LoadTranscript(data: string) returns (r: Result<(string, string), Fault>)
      modifies this`header, this`customHeader, this`postEncoding, this`postParamsType, this`postRawData,
               this`postJson
      ensures ParseHead(data).Err? ==> r == Err(ParseHead(data).error) && unchanged(this)
      ensures ParseHead(data).Ok? ==> Loaded(ParseHead(data).value, old(postParamsType), old(postEncoding),
                                             old(postRawData), old(postJson), r)
      ensures params == old(params) && postMultiPart == old(postMultiPart)
    {
      var head := ReadHead(data);
      if head.Err? {
        return Err(head.error);
      }
      r := ApplyHead(head.value);
    }

    /** The fields after a parsed head has been applied, and the result. */
    ghost predicate Loaded(head: Head, t: PostType, encoding: string, raw: Option<Bytes>, json: Option<JsonBody>,
                           r: Result<(string, string), Fault>)
      reads this
    {
      var p := Complete(head, t, encoding);
      && (p.Err? ==>
            && r == Err(p.error)
            && header == head.tables.header && customHeader == head.tables.custom
            && postRawData == raw && postJson == json && postEncoding == encoding && postParamsType == t)
      && (p.Ok? ==>
            && r == Ok((p.value.verb, p.value.url))
            && header == p.value.header && customHeader == p.value.custom
            && (p.value.body.None? ==>
                  postRawData == raw && postJson == json && postEncoding == encoding && postParamsType == t)
            && (p.value.body.Some? ==>
                  var b := p.value.body.value;
                  && postEncoding == b.encoding && postParamsType == b.postType
                  && postRawData == (if b.field.RawField? then Some(b.field.data) else raw)
                  && postJson == (if b.field.JsonField? then Some(b.field.json) else json)))
    }

    /** The host check and the body conversion, applied to the fields. */
    method ApplyHead(head: Head) returns (r: Result<(string, string), Fault>)
      modifies this`header, this`customHeader, this`postEncoding, this`postParamsType, this`postRawData,
               this`postJson
      ensures Loaded(head, old(postParamsType), old(postEncoding), old(postRawData), old(postJson), r)
      ensures params == old(params) && postMultiPart == old(postMultiPart)
    {
      var tables := head.tables;
      header := tables.header;
      customHeader := tables.custom;
      if tables.host == "" {
        return Err(Reported(UrlParseError));
      }
      var url := TargetUrl(tables.host, head.target);
      var body := head.body;
      if ToUpper(head.verb) != "GET" && body.Some? {
        var converted := Body.ConvertTranscriptBody(ContentTypeOf(header), postParamsType, postEncoding,
                                                    body.value);
        StoreBody(converted);
      }
      r := Ok((head.verb, url));
    }

    /** A converted transcript body written into the body fields, its
        Content-Type replacing the table's. */
    method StoreBody(converted: Body.TranscriptBody)
      modifies this`postEncoding, this`postParamsType, this`postRawData, this`postJson, this`header
      ensures postEncoding == converted.encoding && postParamsType == converted.postType
      ensures postRawData == (if converted.field.RawField? then Some(converted.field.data) else old(postRawData))
      ensures postJson == (if converted.field.JsonField? then Some(converted.field.json) else old(postJson))
      ensures header == (if converted.contentType.Some? then old(header)[ContentType := converted.contentType.value]
                         else old(header))
    {
      postEncoding := converted.encoding;
      postParamsType := converted.postType;
      match converted.field {
        case RawField(d) => postRawData := Some(d);
        case JsonField(j) => postJson := Some(j);
      }
      if converted.contentType.Some? {
        header := header[ContentType := converted.contentType.value];
      }
    }

    /** RequestBase's choice of body variant, made in place. */
    method ResolvePostType(paramStr: string)
      modifies this`postParamsType
      ensures postParamsType
              == Body.ResolvePostType(old(postParamsType), paramStr, postJson, postRawData, postMultiPart)
    {
      if postParamsType == Unspecified {
        if paramStr != "" {
          postParamsType := UrlEncoded;
        }
        if postJson.Some? {
          postParamsType := Json;
        }
        if postRawData.Some? && !postRawData.value.IsEmpty() {
          postParamsType := Raw;
        }
        if postMultiPart.Some? && |postMultiPart.value| > 0 {
          postParamsType := FormData;
        }
      }
    }

    /** The three default headers, each added only when Header lacks it. */
    method FillDefaultHeaders()
      modifies this`header
      ensures header == WithDefaults(old(header))
    {
      if AcceptLanguage !in header {
        header := header[AcceptLanguage := DefaultAcceptLanguage];
      }
      if UserAgent !in header {
        header := header[UserAgent := DefaultUserAgent];
      }
      if Accept !in header {
        header := header[Accept := DefaultAccept];
      }
    }

    /** RequestBase up to the transport: an empty URL is refused before
        anything changes; the variant is resolved, the URL parsed (a URL that
        does not parse is a URL error), merged with the parameters for GET,
        the default headers filled, and for POST and PUT the body prepared
        with its per-variant check. */
    method Prepare(url: string, verb: string) returns (r: Result<Prepared, Fault>)
      modifies this`postParamsType, this`header
      ensures url == "" ==> r == Err(Unhandled(NullOrEmptyUrl))
                            && postParamsType == old(postParamsType) && header == old(header)
      ensures url != "" ==>
                postParamsType == Body.ResolvePostType(old(postParamsType), ParamStr(params), postJson,
                                                       postRawData, postMultiPart)
      ensures url != "" && ParseUri(url).None? ==>
                r == Err(Reported(UrlParseError)) && header == old(header)
      ensures url != "" && ParseUri(url).Some? ==>
                var paramStr := ParamStr(params);
                var target := if verb == "GET" then MergeGetUrlFixed(url, ParseUri(url).value, paramStr) else url;
                var body := if verb == "POST" || verb == "PUT"
                            then Body.PostBody(postParamsType, paramStr, postJson, postRawData, postMultiPart,
                                               postEncoding)
                            else Ok(None);
                && header == WithDefaults(old(header))
                && (body.Err? ==> r == Err(body.error))
                && (body.Ok? ==> r == Ok(Prepared(verb, target, header, customHeader, body.value)))
    {
      if url == "" {
        return Err(Unhandled(NullOrEmptyUrl));
      }
      var paramStr := ParamStr(params);
      ResolvePostType(paramStr);
      var uri := ParseUri(url);
      if uri.None? {
        return Err(Reported(UrlParseError));
      }
      var target := url;
      if verb == "GET" {
        target := MergeGetUrlFixed(url, uri.value, paramStr);
      }
      FillDefaultHeaders();
      var body: Option<Body.WireBody> := None;
      if verb == "POST" || verb == "PUT" {
        var written := Body.PostBody(postParamsType, paramStr, postJson, postRawData, postMultiPart,
                                     postEncoding);
        if written.Err? {
          return Err(written.error);
        }
        body := written.value;
      }
      r := Ok(Prepared(verb, target, header, customHeader, body));
    }
  }
}
