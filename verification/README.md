# PyLibSharp.Requests and YukariToolBox ConsoleLog, modelled in Dafny

This project models the request-building core of the PyLibSharp `Requests` library together with the small
level-gated logger `ConsoleLog` of YukariToolBox, and proves properties of the model.

What it covers:

- **Transcript parsing (`XHRBase`).** A captured HTTP request is cut on the first blank line into a head and a body.
  The request line gives the method and the target. Each header line is trimmed and split on its first colon, then
  routed to the host, dropped (`Content-Length`, `Accept-Encoding`), put in the known-header table
  (`HttpRequestHeader`) or put in the custom-header table. The URL is `"http://" + host + target`. For a method other
  than GET that has a body, the body text is converted into the body fields as the Content-Type directs.
  Modules `Transcript` and `Requests` (`ReqParams.LoadTranscript`).
- **Request preparation (`RequestBase`, up to the transport).** This covers:
  - the url-encoded parameter string (`paramStr`);
  - the resolution of an unspecified body variant;
  - the parsing of the URL;
  - the GET query merge;
  - the three default headers;
  - for POST and PUT, the per-variant check that the body's source field is present.

  Modules `UrlEncoding`, `Body`, `GetUrl`, `Headers` and `Requests` (`ReqParams.Prepare`).
- **The response stage.** The drain loop copies the response stream into one buffer, chunk by chunk. The encoding is
  chosen from Content-Encoding, then the character set, then UTF-8, and can be overridden by an HTML meta charset.
  Module `Responses`.
- **ConsoleLog.** Covers the level and the output service, the three setters, the five level gates and
  `ErrorLogBuilder`. Module `ConsoleLogging`.

`Common` holds the shared values, including `ErrorType` and `PostType` as declared by the library. `Text` holds the
.NET string operations the library relies on: `Trim`, `Split` with and without `RemoveEmptyEntries`, `IndexOf`,
`Contains` and ASCII case mapping.

Failures are values. `Fault.Reported(t)` is a library exception whose error type is `t`, as it is reported to
`ReqExceptionHandler`. `Fault.Unhandled(c)` is a runtime exception the library lets escape: an index out of range, a
duplicate dictionary key, `ArgumentNullException` for an empty URL, or `ArgumentOutOfRangeException` from the logger.

Where the code and its documentation differ, the model follows the code. The defects listed under "## Findings"
are each modelled twice: once as written, with a lemma that exhibits the defect, and once corrected. The end-to-end
members (`ParseHead`, `ParseTranscript`, `ReadHead`, `ReqParams.LoadTranscript` and `ReqParams.Prepare`) are built
on the corrected versions, and "## Left out" says where they differ from the code as written. Header routing compares `host`,
`content-length` and `accept-encoding` case-insensitively. `Enum.IsDefined`, however, matches a known header name
exactly, so `content-type` is a custom header while `Content-Type` is a known one.

## Model

| member | source | states |
|---|---|---|
| Body.ResolvePostType | PyLibSharp/Requests/Requests.cs:593-614 | An explicit variant is kept. From `none`, the result is form_data iff multipart has a part; otherwise raw iff raw data is non-empty; otherwise json iff PostJson is set; otherwise url-encoded iff paramStr is non-empty; otherwise `none`. |
| Body.PostBody | PyLibSharp/Requests/Requests.cs:778-900 | Fails with ArgumentNull exactly when the variant's source field is missing (empty paramStr, null multipart, null or empty raw data, null json). Writes nothing for `none`. Otherwise it sends that source with the variant's Content-Type (`application/x-www-form-urlencoded;charset=` or `application/json;charset=` + encoding). |
| Body.ResolvedVariantHasSource | PyLibSharp/Requests/Requests.cs:593-614 | A variant resolved from `none` never fails the per-variant null check. |
| Body.FormBodyRoundTrip | PyLibSharp/Requests/Requests.cs:589-592 | A url-encoded body built from a non-empty Params list decodes back to exactly those pairs. |
| Body.SniffPostType | PyLibSharp/Requests/Requests.cs:430-452 | An explicit variant is kept. From `none`: json iff the lower-cased Content-Type contains application/json; form_data iff it contains multipart/form-data but not json; url-encoded iff it contains only the url-encoded type. Never yields raw. |
| Body.ConvertTranscriptBody | PyLibSharp/Requests/Requests.cs:419-493 | The encoding is the Content-Type's `charset=` piece, or the old one. By the variant the sniffing chose: url-encoded becomes raw bytes with the Content-Type rewritten to `application/x-www-form-urlencoded;charset=` + encoding; raw and multipart become raw bytes with the Content-Type kept; json is kept as text with the Content-Type rewritten to `application/json;charset=` + encoding; `none` keeps its variant and the Content-Type, and keeps the text as json iff the Content-Type contains the misspelt `applition/json`, else as raw bytes. |
| Body.TranscriptBodyIsSent | PyLibSharp/Requests/Requests.cs:455-493 | A converted transcript body is always accepted by the per-variant check, and its payload is the body text. |
| UrlEncoding.UrlEncode | PyLibSharp/Requests/Requests.cs:591 | An encoded key or value never contains `&` or `=`. |
| UrlEncoding.Utf8RoundTrip | PyLibSharp/Requests/Requests.cs:591 | Decoding the UTF-8 bytes of a string gives the string back. |
| UrlEncoding.UrlEncodeRoundTrip | PyLibSharp/Requests/Requests.cs:591 | Percent-decoding then UTF-8 decoding an encoded string gives it back. |
| UrlEncoding.ParamStr | PyLibSharp/Requests/Requests.cs:589-592 | paramStr is empty iff the Params list is empty. |
| UrlEncoding.ParamStrRoundTrip | PyLibSharp/Requests/Requests.cs:589-592 | Splitting paramStr on `&` and `=` and decoding gives the Params list back, in order. |
| Headers.HeaderByName | PyLibSharp/Requests/Requests.cs:382-385 | Finds the HttpRequestHeader with exactly this .NET name, and finds none iff no member has it. |
| Headers.WithDefaults | PyLibSharp/Requests/Requests.cs:674-690 | The keys are the old keys plus AcceptLanguage, UserAgent and Accept. Every value the caller set is kept. Each default appears exactly where its key was absent. |
| Headers.WithDefaultsIdempotent | PyLibSharp/Requests/Requests.cs:674-690 | Filling the defaults twice is the same as filling them once. |
| GetUrl.ParseUri | PyLibSharp/Requests/Requests.cs:618 | A parsed URL has an absolute path starting with `/` and a query that is empty or starts with `?`. |
| GetUrl.QueryWithParams | PyLibSharp/Requests/Requests.cs:633-639 | The merged query starts with `?`, keeps the old query (with a `?` put in front when it had none) as its beginning, and ends with the parameters. |
| GetUrl.MergeGetUrl | PyLibSharp/Requests/Requests.cs:623-640 | As written. Without parameters the result is a prefix of the URL, and equals the URL exactly when it holds at most one `?`. With parameters it starts with the part before the first `?` and ends with the parameters. |
| GetUrl.SecondQuestionMarkDropped | PyLibSharp/Requests/Requests.cs:623-629 | As written, a GET URL `…/?a?b` with no parameters is sent as `…/?a`, which differs from the URL given. |
| GetUrl.DoubledSlash | PyLibSharp/Requests/Requests.cs:640 | As written, `scheme://host/?q` with parameters p is sent as `scheme://host//?q&p`. |
| GetUrl.MergeGetUrlFixed | PyLibSharp/Requests/Requests.cs:621-641 | Without parameters the URL is unchanged. With parameters the result starts with the part of the URL before the first `?` and ends with the parameters. |
| GetUrl.SingleSlash | PyLibSharp/Requests/Requests.cs:640 | The corrected merge sends `scheme://host/?q` with parameters p as `scheme://host/?q&p`. |
| GetUrl.QueryWithParamsText | PyLibSharp/Requests/Requests.cs:633-639 | For an old query whose text does not end in `&`: the merged query is `?`, then the old query text, then `&` only when that text is non-empty, then the parameters. |
| GetUrl.QueryAfterAmpersand | PyLibSharp/Requests/Requests.cs:633-639 | For an old query whose text ends in `&`: the merged query is `?`, the old text, then the parameters, with no second `&`. |
| GetUrl.JoinQuery | PyLibSharp/Requests/Requests.cs:633-639 | The reference query text: it starts with the old text, ends with the parameters, and is longer than both together by one `&` exactly when the old text is non-empty and does not end in `&`. |
| GetUrl.MergedQuery | PyLibSharp/Requests/Requests.cs:633-640 | For every old query, the corrected URL with parameters holds a `?`, and the text after its first `?` is JoinQuery of the old query text and the parameters. |
| GetUrl.MergedQueryFields | PyLibSharp/Requests/Requests.cs:633-640 | For an old query whose text does not end in `&`, the merged URL's query fields are the old query's fields followed by the parameters' fields. None is lost and no empty field is inserted. (The `&`-ending case is covered by GetUrl.MergedQuery.) |
| Transcript.SplitSections | PyLibSharp/Requests/Requests.cs:297-327 | As written. It raises the index error exactly when the transcript is empty or only blank-line separators, and reports UrlParseError exactly when the head has no non-empty line otherwise. It succeeds exactly when the head (the text before the first blank line, after leading separators) has a non-empty line. Then the request line followed by the header lines are exactly those lines, each non-empty and free of line feeds, and a body, when present, is non-empty. |
| Transcript.EmptyTranscriptIndexError | PyLibSharp/Requests/Requests.cs:297-300 | As written, the empty transcript escapes as an index error. |
| Transcript.SplitSectionsFixed | PyLibSharp/Requests/Requests.cs:297-327 | Corrected. It succeeds exactly when the head has a non-empty line, and every failure is UrlParseError. On success the request line and header lines are exactly the head's non-empty lines, none holds a line feed, and a body, when present, is non-empty. |
| Transcript.SplitSectionsFixedAgrees | PyLibSharp/Requests/Requests.cs:297-327 | The corrected split equals the library's wherever the library does not raise the index error, and reports UrlParseError where it does. |
| Transcript.HeadPart | PyLibSharp/Requests/Requests.cs:297-300 | The head holds no blank-line separator and is a prefix of the transcript with its leading separators removed. |
| Transcript.SplitSectionsRoundTrip | PyLibSharp/Requests/Requests.cs:297-330 | Lines that are non-empty and free of `\r` and `\n`, joined by line feeds and optionally followed by the blank line and a non-empty body, split back (with both splits) into the first line as request line, the other lines as header lines, and that body. |
| Transcript.ParseRequestLine | PyLibSharp/Requests/Requests.cs:329-353 | Fails with UrlParseError iff the cleaned line has fewer than three words. Otherwise the method and the target are its first two words, and contain no space. |
| Transcript.RequestLineRoundTrip | PyLibSharp/Requests/Requests.cs:335-338 | `method target protocol` parses back to that method and target. |
| Transcript.CleanLineIsTrim | PyLibSharp/Requests/Requests.cs:361 | The `\r`-aware clean-up of a header line is exactly Trim. |
| Transcript.SplitHeaderLine | PyLibSharp/Requests/Requests.cs:361-368 | A line without a colon becomes a key with an empty value. Otherwise the key holds no colon, because the line is split on its first colon only. |
| Transcript.HeaderLineRoundTrip | PyLibSharp/Requests/Requests.cs:361-368 | `Key: Value` splits back into that key and value. |
| Transcript.Classify | PyLibSharp/Requests/Requests.cs:370-393 | host (any case) goes to the host, and content-length and accept-encoding (any case) are dropped. A key naming an HttpRequestHeader once `-` is removed goes to the known table. Anything else goes to the custom table. Each direction is stated. |
| Transcript.RoutesConsistent | PyLibSharp/Requests/Requests.cs:382-392 | No key is routed both to the known table and to the custom table. |
| Transcript.RouteLine | PyLibSharp/Requests/Requests.cs:370-393 | Applying one header line fails only with the duplicate-key error. |
| Transcript.RouteHeaderLines | PyLibSharp/Requests/Requests.cs:356-394 | The loop over the header lines yields the fold of the per-line routing. |
| Transcript.ApplyRoutes | PyLibSharp/Requests/Requests.cs:359-394 | The in-place loop over routed lines equals the fold, stopping at the first duplicate. |
| Transcript.ErrorIsFinal | PyLibSharp/Requests/Requests.cs:359-394 | Once a prefix of the lines fails, the whole run fails with the same error. |
| Transcript.RoutingSpec | PyLibSharp/Requests/Requests.cs:356-398 | Routing fails iff two lines write the same table slot, and then with DuplicateKey. Otherwise the known table, the custom table and the host are exactly what the lines send there, and the host is the last Host line. |
| Transcript.CustomKeysAreCustom | PyLibSharp/Requests/Requests.cs:387-392 | Every custom-table key routes to the custom table, so the removal a known header performs finds nothing to remove. |
| Transcript.ParseHead | PyLibSharp/Requests/Requests.cs:297-398 | Succeeds exactly when the (corrected) split succeeds, the request line has at least three words and no two header lines write the same table slot. Then the method and target are the first two words, the header tables are exactly what the lines route there (host: the last Host line), and the body is the split's body. Every failure is UrlParseError or DuplicateKey. |
| Transcript.TargetUrl | PyLibSharp/Requests/Requests.cs:417 | The URL starts with `http://` and ends with the request target. |
| Transcript.Complete | PyLibSharp/Requests/Requests.cs:397-494 | Fails with UrlParseError iff no host was given. On success: the URL is `http://` + host + target and the custom table is kept. The header table changes only at Content-Type. A body is converted iff the method is not GET (ignoring case) and text follows the blank line. The Content-Type then matches the conversion. |
| Transcript.ParseTranscript | PyLibSharp/Requests/Requests.cs:295-494 | Succeeds exactly when ParseHead does and a Host line gave a non-empty host. Then the method is the first word, the URL is `http://` + last host + target, the custom table is exactly what the lines route there, the header table too when no body is converted, and a body is converted exactly when the method is not GET (ignoring case) and the transcript has one; its Content-Type is the one the conversion chose. With the corrected split every failure is UrlParseError or DuplicateKey. |
| Transcript.HostFromLastHostLine | PyLibSharp/Requests/Requests.cs:370-373 | The host is the value of the last Host line. A transcript without one is rejected with UrlParseError. |
| Transcript.TranscriptRoundTrip | PyLibSharp/Requests/Requests.cs:295-494 | A transcript `method target protocol`, a `Host: h` line and optionally a blank line and a body parses to that method and to the URL `http://` + h + target, and its body is converted exactly when the method is not GET and the body is present. |
| Requests.ReadHead | PyLibSharp/Requests/Requests.cs:297-394 | The imperative reading of the head (split, request line, header loop) equals ParseHead. |
| Requests.ReqParams.constructor | PyLibSharp/Requests/Requests.cs:17-35 | The defaults: empty tables and params, no body fields, UTF-8, `none`, the three flags set, timeout 500, buffer 1024. |
| Requests.ReqParams.LoadTranscript | PyLibSharp/Requests/Requests.cs:295-494 | May change only Header, CustomHeader and the four body fields. A head that fails (no line, a short request line, a duplicate header) leaves every field unchanged and returns its error. Otherwise the fields and the result are those of ApplyHead for the parsed head. |
| Requests.ReqParams.ApplyHead | PyLibSharp/Requests/Requests.cs:397-494 | May change only Header, CustomHeader and the four body fields. Header and CustomHeader are replaced even when the host check then fails. On success the result is the method and URL, and the body fields and PostParamsType/PostEncoding follow the converted body; without a converted body they keep their old values. |
| Requests.ReqParams.StoreBody | PyLibSharp/Requests/Requests.cs:423-490 | The converted body lands in the fields: PostEncoding and PostParamsType take the conversion's values, exactly one of PostRawData and PostJson is replaced (the other keeps its old value), and the Content-Type entry is replaced only when the conversion chose one. |
| Requests.ReqParams.ResolvePostType | PyLibSharp/Requests/Requests.cs:593-614 | The four successive overrides leave PostParamsType equal to Body.ResolvePostType of its old value. |
| Requests.ReqParams.FillDefaultHeaders | PyLibSharp/Requests/Requests.cs:674-690 | Header becomes WithDefaults of its old value. |
| Requests.ReqParams.Prepare | PyLibSharp/Requests/Requests.cs:565-900 | An empty URL raises the null-argument error before anything changes. Otherwise the variant is resolved. A URL that does not parse is UrlParseError, with the headers untouched. GET uses the corrected merge. The defaults are filled, and POST/PUT carry PostBody's body or its ArgumentNull error. |
| Responses.ReadInto | PyLibSharp/Requests/Requests.cs:1039-1044 | A read copies as many bytes as fit, from the current position, into the buffer. |
| Responses.Drain | PyLibSharp/Requests/Requests.cs:1037-1045 | With a positive buffer size the drained body is the whole stream. With size 0 it is empty. A negative size or a null stream is a response error. |
| Responses.HeaderEncoding | PyLibSharp/Requests/Requests.cs:1048-1062 | A non-empty Content-Encoding wins, lower-cased. Otherwise a non-empty character set does, when the Content-Type mentions `charset`. None, meaning UTF-8, exactly when neither applies. |
| Responses.ResponseEncoding | PyLibSharp/Requests/Requests.cs:1048-1092 | The result is a known encoding or UTF-8. It is a response error exactly when the header encoding is unknown, or when the meta tag is consulted, names a charset and that charset is unknown. |
| Responses.MetaOverrides | PyLibSharp/Requests/Requests.cs:1064-1077 | With the flag set and `text/html` in the Content-Type, a non-empty meta charset replaces the header choice. |
| Responses.HeaderPrecedence | PyLibSharp/Requests/Requests.cs:1048-1077 | When the meta tag is not consulted, or is consulted and names no charset, the headers decide: Content-Encoding, then character set, then UTF-8. |
| Responses.Normalize | PyLibSharp/Requests/Requests.cs:1037-1081 | The response is the drained body, the status, the Content-Type and the chosen encoding, or the first error. |
| ConsoleLogging.Forwarded | YukariToolBox/Console/ConsoleLog.cs:81-129 | Info, Warning, Error and Fatal forward iff level ≤ 1, 2, 3, 4 respectively, each to its own channel. Debug forwards iff the level is Debug, to the Fatal channel. |
| ConsoleLogging.NoLogSilences | YukariToolBox/Console/ConsoleLog.cs:31 | At level 5 no call is forwarded. |
| ConsoleLogging.GatesMonotone | YukariToolBox/Console/ConsoleLog.cs:81-118 | A non-Debug call forwarded at a higher level is forwarded, to the same channel, at every lower level. |
| ConsoleLogging.DebugGate | YukariToolBox/Console/ConsoleLog.cs:125-129 | Debug forwards iff the level is Debug, and then on the Fatal channel. At the start-up level Info every other call is forwarded and Debug is not. |
| ConsoleLogging.Apply | YukariToolBox/Console/ConsoleLog.cs:21-47 | As written, SetLogLevel fails iff its argument is outside 0..4. Otherwise it, like SetLoggerService, leaves the state unchanged. Only SetNoLog changes the level. |
| ConsoleLogging.ApplyFixed | YukariToolBox/Console/ConsoleLog.cs:21-47 | The intended setters store the accepted level or the new service, with the same range error. |
| ConsoleLogging.SettersAsWritten | YukariToolBox/Console/ConsoleLog.cs:21-47 | As written, no run of setter calls changes the service, and the level stays where it started or becomes 5. |
| ConsoleLogging.DebugNeverEnabled | YukariToolBox/Console/ConsoleLog.cs:13-47 | As written, from start-up no run of setter calls enables Debug output or replaces the default service. |
| ConsoleLogging.SettersFixed | YukariToolBox/Console/ConsoleLog.cs:21-47 | With the intended setters the last accepted level or service is the stored one, and each setter leaves the other field alone. |
| ConsoleLogging.ConsoleLog.constructor | YukariToolBox/Console/ConsoleLog.cs:13-38 | Start-up state: level Info, the default service, nothing logged. |
| ConsoleLogging.ConsoleLog.SetLogLevel | YukariToolBox/Console/ConsoleLog.cs:21-26 | A level outside 0..4 raises the range error. Otherwise the call succeeds and the level is unchanged. |
| ConsoleLogging.ConsoleLog.SetLogLevelFixed | YukariToolBox/Console/ConsoleLog.cs:21-26 | The same range check, and an accepted level is stored. |
| ConsoleLogging.ConsoleLog.SetNoLog | YukariToolBox/Console/ConsoleLog.cs:31 | The level becomes 5 and nothing else changes. |
| ConsoleLogging.ConsoleLog.SetLoggerService | YukariToolBox/Console/ConsoleLog.cs:44-47 | The service is unchanged. |
| ConsoleLogging.ConsoleLog.SetLoggerServiceFixed | YukariToolBox/Console/ConsoleLog.cs:44-47 | The new service is installed. |
| ConsoleLogging.ConsoleLog.LogInfo | YukariToolBox/Console/ConsoleLog.cs:81-85 | Records one Info event on the current service iff the gate lets it through, and nothing otherwise. |
| ConsoleLogging.ConsoleLog.LogWarning | YukariToolBox/Console/ConsoleLog.cs:92-96 | The same for Warning at level ≤ 2. |
| ConsoleLogging.ConsoleLog.LogError | YukariToolBox/Console/ConsoleLog.cs:103-107 | The same for Error at level ≤ 3. |
| ConsoleLogging.ConsoleLog.LogFatal | YukariToolBox/Console/ConsoleLog.cs:114-118 | The same for Fatal at level ≤ 4. |
| ConsoleLogging.ConsoleLog.LogDebug | YukariToolBox/Console/ConsoleLog.cs:125-129 | Records one event on the Fatal channel iff the level is Debug. |
| ConsoleLogging.ErrorLogBuilder | YukariToolBox/Console/ConsoleLog.cs:56-72 | The text starts with `\r\n==============ERROR==============\r\nError:` and ends with `\r\n=================================\r\n`. It holds the type name, the message and the stack trace in that order, each followed by its label or separator, and its length is the sum of the parts. |

## Left out

- The transport is not modelled: HttpWebRequest, `GetRequestStream`, `GetResponseAsync`, cookies, the proxy and
  copying Header entries onto the request's properties. `Prepare` stops where the request would be created. The
  response stage takes the transport's answer as a `TransportResponse` value plus the stream's content.
- Failures while copying headers onto the request (HTTPRequestHeaderError) are not modelled.
- The cancellation and timeout race, and the dispatch of status-code, timeout and cancellation errors, are left out.
  They depend on timing and on the transport, and so does their outcome, the empty status-0 response.
- Handler mode (`UseHandler` and the `ReqExceptionHandler` event) is left out, and failures are returned instead.
  A failure's error type is the one the library reports to the handler. In throw mode, exceptions built from a
  message and an inner exception leave their own `ErrType` at its default.
- In handler mode the library continues after reporting an error. That continuation is not modelled.
- `XHR`, `XHRAsync`, `Get`, `Post` and the other public entry points are thin wrappers around `XHRBase` and
  `RequestBase`. They are not modelled. `ReqParams.LoadTranscript` followed by `ReqParams.Prepare` stands for
  `XHRBase`.
- `IsStream` is not modelled.
- Responses.ReadInto: a read always returns as many bytes as fit (the smaller of the buffer size and what remains).
  A network stream may return fewer, and such shorter reads are not modelled. The loop copies every byte it is
  given and stops only on a read of 0 bytes, so the drained body is still the whole stream, but that is not proved
  for shorter reads.
- Transcript.ParseHead: built on `SplitSectionsFixed`. For the empty transcript (or one of only blank-line
  separators) it reports UrlParseError, where the code as written raises an index error
  (`Transcript.EmptyTranscriptIndexError`).
- Transcript.ParseTranscript: built on `ParseHead`, so it reports UrlParseError for the empty transcript where the
  code as written raises an index error.
- Requests.ReadHead: equals `ParseHead`, so it has the same difference for the empty transcript.
- Requests.ReqParams.LoadTranscript: built on `ReadHead`, so it has the same difference for the empty transcript.
- Requests.ReqParams.Prepare: merges GET URLs with `MergeGetUrlFixed`. The code as written sends
  `http://h//?a=1&b=2` for `http://h/?a=1` with parameter `b=2` (`GetUrl.DoubledSlash`), and drops the text after
  a second `?` when there are no parameters (`GetUrl.SecondQuestionMarkDropped`).
- Encodings are represented by their names. The encoding registry, `Encoding.GetEncoding`, `WebName`, `GetBytes` and
  `GetString` are not modelled:
  - a body's bytes are `Bytes.Encoded(name, text)`;
  - an encoding name from a transcript's Content-Type is used as given, and a name `GetEncoding` would reject is not
    detected there;
  - in the response stage the set of known names is a parameter.
- Responses.ResponseEncoding: the meta-tag regular expression and the decoding that precedes it are a parameter
  (`metaCharset`). Only the precedence around them is modelled.
- JSON serialisation of a non-string PostJson is represented by its serialised text. The multipart framing, its
  Content-Type and its Content-Length are not modelled.
- `HttpUtility.UrlEncode` is modelled as its documented behaviour: UTF-8 bytes, then ASCII letters, digits and
  `-_.!*()` kept, a space written as `+`, and every other byte written as `%xx`. The properties the code relies on are
  proved: the result holds no `&` or `=`, and it decodes back.
- Params is an ordered list of pairs. The dictionary's key uniqueness is not enforced.
- `new Uri(url)` is modelled as a simplified grammar, so a URL failing any Uri rule beyond it is not detected:
  - a scheme of letters, digits, `+`, `-` or `.`;
  - `://`;
  - a non-empty authority up to `/`, `?` or `#`;
  - a path that becomes `/` when empty;
  - a query from `?` up to `#`.

  Escaping, normalisation, relative URLs and file paths are not modelled.
- Case mapping (`ToLower`, `ToUpper`) is ASCII-only. Culture-sensitive mapping of non-ASCII letters is not modelled.
- `IConsoleLogService` output is recorded as a ghost list of events, and services are identified by a number.
  `UnhandledExceptionLog` only forwards to the service and is not modelled.
- `LogLevel` is taken as Debug = 0, Info = 1, Warn = 2, Error = 3, Fatal = 4. The enum's own file is not part of this
  model.
- ConsoleLogging.ErrorLogBuilder: the exception is represented by its type name, message and stack trace. A null
  stack trace is passed as the empty string.
- Concurrency between log calls and setters (the fields are static) is not modelled.

## Findings

| source | as written | input that shows it | evidently intended | confidence | as-written member | corrected member |
|---|---|---|---|---|---|---|
| PyLibSharp/Requests/Requests.cs:297-300 | `HeaderAndData[0]` is indexed before the "at least one line" check at line 313 | the transcript `""` (or only `\r\n\r\n`) | the UrlParseError "XHR format error" that line 313 raises | not executed | Transcript.SplitSections, shown by Transcript.EmptyTranscriptIndexError | Transcript.SplitSectionsFixed, related by Transcript.SplitSectionsFixedAgrees |
| PyLibSharp/Requests/Requests.cs:623-629 | with an empty paramStr the URL is rebuilt from `Split('?')[0]` and `Split('?')[1]` only | GET `http://h/?a?b` with no Params is sent as `http://h/?a` | the URL sent unchanged | not executed | GetUrl.MergeGetUrl, shown by GetUrl.SecondQuestionMarkDropped | GetUrl.MergeGetUrlFixed, with GetUrl.MergedQueryFields |
| PyLibSharp/Requests/Requests.cs:640 | the root-path `/` is added when the whole URL does not end in `/` | GET `http://h/?q` with Params p is sent as `http://h//?q&p` | the test made on the part before `?`, giving `http://h/?q&p` | not executed | GetUrl.MergeGetUrl, shown by GetUrl.DoubledSlash | GetUrl.MergeGetUrlFixed, shown by GetUrl.SingleSlash |
| YukariToolBox/Console/ConsoleLog.cs:21-26 | `level = level;` assigns the parameter to itself | SetLogLevel(Debug) at start-up: Debug output stays off | the static level set to the argument | not executed | ConsoleLogging.ConsoleLog.SetLogLevel (ConsoleLogging.Apply), shown by ConsoleLogging.DebugNeverEnabled | ConsoleLogging.ConsoleLog.SetLogLevelFixed (ConsoleLogging.ApplyFixed), shown by ConsoleLogging.SettersFixed |
| YukariToolBox/Console/ConsoleLog.cs:44-47 | `logger = logger;` assigns the parameter to itself | SetLoggerService(s) with any s: output still goes to the default service | the static service replaced | not executed | ConsoleLogging.ConsoleLog.SetLoggerService (ConsoleLogging.Apply), shown by ConsoleLogging.DebugNeverEnabled | ConsoleLogging.ConsoleLog.SetLoggerServiceFixed (ConsoleLogging.ApplyFixed), shown by ConsoleLogging.SettersFixed |

The rest of the model uses the corrected members: `ParseHead` splits with `SplitSectionsFixed`, and `Prepare` merges
GET URLs with `MergeGetUrlFixed`.
