/** The last stage of RequestBase: draining the response stream into one
    buffer and choosing the encoding the body is read with. */
module Responses {
  import opened Common
  import opened Text

  /** What the transport hands back, reduced to the properties this stage
      reads. A header the server did not send is None. */
  datatype TransportResponse = TransportResponse(
    contentEncoding: Option<string>,
    characterSet: Option<string>,
    contentType: string,
    status: int)

  /** ReqResponse: the drained body, the status code, the Content-Type and the
      name of the encoding the body is to be read with. */
  datatype Response = Response(body: seq<byte>, status: int, contentType: string, encoding: string)

  function Min(a: int, b: int): int {
    if a <= b then a else b
  }

  /** Stream.ReadAsync(buffer, 0, buffer.Length) on a stream whose remaining
      content is data[pos..]: copies as many bytes as fit into the buffer and
      returns how many it copied; 0 means the stream is exhausted (or the
      buffer has no room). */
  method ReadInto(data: seq<byte>, pos: nat, buffer: array<byte>) returns (count: nat)
    requires pos <= |data|
    modifies buffer
    ensures count == Min(buffer.Length, |data| - pos)
    ensures buffer[..count] == data[pos..pos + count]
  {
    count := Min(buffer.Length, |data| - pos);
    var k := 0;
    while k < count
      invariant 0 <= k <= count
      invariant forall j :: 0 <= j < k ==> buffer[j] == data[pos + j]
    {
      buffer[k] := data[pos + k];
      k := k + 1;
    }
  }

  /** The drain loop: reads into a buffer of ReadBufferSize bytes until a read
      returns nothing, writing each chunk to the end of the body. A stream that
      is null, or a negative buffer size (the buffer cannot be allocated), is an
      exception that the enclosing handler re-raises as a response error. */
  method Drain(stream: Option<seq<byte>>, bufferSize: int) returns (r: Result<seq<byte>, Fault>)
    ensures bufferSize < 0 || stream.None? ==> r == Err(Reported(Other))
    ensures bufferSize == 0 && stream.Some? ==> r == Ok([])
    ensures bufferSize > 0 && stream.Some? ==> r == Ok(stream.value)
  {
    if bufferSize < 0 {
      return Err(Reported(Other));
    }
    var buffer := new byte[bufferSize];
    if stream.None? {
      return Err(Reported(Other));
    }
    var data := stream.value;
    var body: seq<byte> := [];
    var pos := 0;
    var count := ReadInto(data, pos, buffer);
    while count > 0
      invariant pos <= |data| && body == data[..pos]
      invariant buffer.Length == bufferSize && count == Min(bufferSize, |data| - pos)
      invariant bufferSize == 0 ==> pos == 0
      invariant buffer[..count] == data[pos..pos + count]
      decreases |data| - pos
    {
      body := body + buffer[..count];
      pos := pos + count;
      count := ReadInto(data, pos, buffer);
    }
    assert bufferSize > 0 ==> pos == |data|;
    assert data[..|data|] == data;
    r := Ok(body);
  }

  /** A header value that is present and not empty. */
  predicate Given(v: Option<string>) {
    v.Some? && v.value != ""
  }

  /** The encoding the response headers name, lower-cased: Content-Encoding
      first, then the character set when the Content-Type mentions a charset;
      None when neither applies and UTF-8 is used. */
  function HeaderEncoding(resp: TransportResponse): (r: Option<string>)
    ensures Given(resp.contentEncoding) ==> r == Some(ToLower(resp.contentEncoding.value))
    ensures !Given(resp.contentEncoding) && Given(resp.characterSet) && Contains(resp.contentType, "charset")
            ==> r == Some(ToLower(resp.characterSet.value))
    ensures r.None? <==>
              !Given(resp.contentEncoding) && !(Given(resp.characterSet) && Contains(resp.contentType, "charset"))
  {
    if Given(resp.contentEncoding) then Some(ToLower(resp.contentEncoding.value))
    else if Given(resp.characterSet) && Contains(resp.contentType, "charset") then Some(ToLower(resp.characterSet.value))
    else None
  }

  /** Whether the HTML meta tag is consulted: the flag is set and the
      lower-cased Content-Type contains "text/html". */
  predicate ConsultsMeta(useMeta: bool, contentType: string) {
    useMeta && Contains(ToLower(contentType), "text/html")
  }

  /** The response encoding. Encoding.GetEncoding is represented by the set of
      names it knows (an unknown name raises, and the handler re-raises it as
      a response error); the meta-tag search by metaCharset, which gives the
      charset the body names when read with the encoding chosen so far. A meta
      charset that is found and not empty replaces the header choice. */
  function ResponseEncoding(resp: TransportResponse, body: seq<byte>, useMeta: bool,
                            supported: string -> bool,
                            metaCharset: (string, seq<byte>) -> Option<string>): (r: Result<string, Fault>)
    ensures r.Err? ==> r.error == Reported(Other)
    ensures r.Ok? ==> supported(r.value) || r.value == Utf8Name
    ensures HeaderEncoding(resp).Some? && !supported(HeaderEncoding(resp).value) ==> r.Err?
    ensures var name := if HeaderEncoding(resp).Some? then HeaderEncoding(resp).value else Utf8Name;
            (ConsultsMeta(useMeta, resp.contentType) && Given(metaCharset(name, body))
             && !supported(metaCharset(name, body).value)) ==> r == Err(Reported(Other))
    ensures var name := if HeaderEncoding(resp).Some? then HeaderEncoding(resp).value else Utf8Name;
            r.Err? <==> || (HeaderEncoding(resp).Some? && !supported(name))
                        || (ConsultsMeta(useMeta, resp.contentType) && Given(metaCharset(name, body))
                            && !supported(metaCharset(name, body).value))
  {
    var declared := HeaderEncoding(resp);
    if declared.Some? && !supported(declared.value) then Err(Reported(Other))
    else
      var name := if declared.Some? then declared.value else Utf8Name;
      if ConsultsMeta(useMeta, resp.contentType) && Given(metaCharset(name, body)) then
        var found := metaCharset(name, body).value;
        if supported(found) then Ok(found) else Err(Reported(Other))
      else Ok(name)
  }

  /** The meta override: when it is consulted and names a known charset, that
      charset is the result whatever the headers said. */
  lemma MetaOverrides(resp: TransportResponse, body: seq<byte>, useMeta: bool, supported: string -> bool,
                      metaCharset: (string, seq<byte>) -> Option<string>)
    requires HeaderEncoding(resp).Some? ==> supported(HeaderEncoding(resp).value)
    requires ConsultsMeta(useMeta, resp.contentType)
    requires var name := if HeaderEncoding(resp).Some? then HeaderEncoding(resp).value else Utf8Name;
             Given(metaCharset(name, body)) && supported(metaCharset(name, body).value)
    ensures var name := if HeaderEncoding(resp).Some? then HeaderEncoding(resp).value else Utf8Name;
            ResponseEncoding(resp, body, useMeta, supported, metaCharset) == Ok(metaCharset(name, body).value)
  {
  }

  /** Without the meta override (the meta tag is not consulted, or it names
      no charset) the headers decide: Content-Encoding over the character set,
      the character set over UTF-8. */
  lemma HeaderPrecedence(resp: TransportResponse, body: seq<byte>, useMeta: bool, supported: string -> bool,
                         metaCharset: (string, seq<byte>) -> Option<string>)
    requires var name := if HeaderEncoding(resp).Some? then HeaderEncoding(resp).value else Utf8Name;
             !ConsultsMeta(useMeta, resp.contentType) || !Given(metaCharset(name, body))
    requires HeaderEncoding(resp).Some? ==> supported(HeaderEncoding(resp).value)
    ensures var r := ResponseEncoding(resp, body, useMeta, supported, metaCharset);
            && (Given(resp.contentEncoding) ==> r == Ok(ToLower(resp.contentEncoding.value)))
            && (!Given(resp.contentEncoding) && Given(resp.characterSet) && Contains(resp.contentType, "charset")
                ==> r == Ok(ToLower(resp.characterSet.value)))
            && (HeaderEncoding(resp).None? ==> r == Ok(Utf8Name))
  {
  }

  /** The response stage: drain, choose the encoding, and record the status
      and Content-Type. */
  method Normalize(resp: TransportResponse, stream: Option<seq<byte>>, bufferSize: int, useMeta: bool,
                   supported: string -> bool, metaCharset: (string, seq<byte>) -> Option<string>)
    returns (r: Result<Response, Fault>)
    ensures bufferSize < 0 || stream.None? ==> r == Err(Reported(Other))
    ensures bufferSize >= 0 && stream.Some? ==>
              var body := if bufferSize == 0 then [] else stream.value;
              var e := ResponseEncoding(resp, body, useMeta, supported, metaCharset);
              && (e.Err? ==> r == Err(e.error))
              && (e.Ok? ==> r == Ok(Response(body, resp.status, resp.contentType, e.value)))
  {
    var drained := Drain(stream, bufferSize);
    if drained.Err? {
      return Err(drained.error);
    }
    var body := drained.value;
    var e := ResponseEncoding(resp, body, useMeta, supported, metaCharset);
    if e.Err? {
      return Err(e.error);
    }
    r := Ok(Response(body, resp.status, resp.contentType, e.value));
  }
}
