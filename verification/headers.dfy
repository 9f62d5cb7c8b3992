/** System.Net.HttpRequestHeader, the recognised request headers, and the
    three default headers a request gets when the caller did not set them. */
module Headers {
  import opened Common

  /** HttpRequestHeader, in declaration order. */
  datatype HttpRequestHeader =
    | CacheControl | Connection | Date | KeepAlive | Pragma | Trailer | TransferEncoding
    | Upgrade | Via | Warning | Allow | ContentLength | ContentType | ContentEncoding
    | ContentLanguage | ContentLocation | ContentMd5 | ContentRange | Expires | LastModified
    | Accept | AcceptCharset | AcceptEncoding | AcceptLanguage | Authorization | Cookie
    | Expect | From | Host | IfMatch | IfModifiedSince | IfNoneMatch | IfRange
    | IfUnmodifiedSince | MaxForwards | ProxyAuthorization | Referer | Range | Te
    | Translate | UserAgent

  /** The member's name as Enum.IsDefined compares it (case-sensitively). */
  function HeaderName(h: HttpRequestHeader): string {
    match h
    case CacheControl => "CacheControl"
    case Connection => "Connection"
    case Date => "Date"
    case KeepAlive => "KeepAlive"
    case Pragma => "Pragma"
    case Trailer => "Trailer"
    case TransferEncoding => "TransferEncoding"
    case Upgrade => "Upgrade"
    case Via => "Via"
    case Warning => "Warning"
    case Allow => "Allow"
    case ContentLength => "ContentLength"
    case ContentType => "ContentType"
    case ContentEncoding => "ContentEncoding"
    case ContentLanguage => "ContentLanguage"
    case ContentLocation => "ContentLocation"
    case ContentMd5 => "ContentMd5"
    case ContentRange => "ContentRange"
    case Expires => "Expires"
    case LastModified => "LastModified"
    case Accept => "Accept"
    case AcceptCharset => "AcceptCharset"
    case AcceptEncoding => "AcceptEncoding"
    case AcceptLanguage => "AcceptLanguage"
    case Authorization => "Authorization"
    case Cookie => "Cookie"
    case Expect => "Expect"
    case From => "From"
    case Host => "Host"
    case IfMatch => "IfMatch"
    case IfModifiedSince => "IfModifiedSince"
    case IfNoneMatch => "IfNoneMatch"
    case IfRange => "IfRange"
    case IfUnmodifiedSince => "IfUnmodifiedSince"
    case MaxForwards => "MaxForwards"
    case ProxyAuthorization => "ProxyAuthorization"
    case Referer => "Referer"
    case Range => "Range"
    case Te => "Te"
    case Translate => "Translate"
    case UserAgent => "UserAgent"
  }

  const AllHeaders: seq<HttpRequestHeader> :=
    [CacheControl, Connection, Date, KeepAlive, Pragma, Trailer, TransferEncoding,
     Upgrade, Via, Warning, Allow, ContentLength, ContentType, ContentEncoding,
     ContentLanguage, ContentLocation, ContentMd5, ContentRange, Expires, LastModified,
     Accept, AcceptCharset, AcceptEncoding, AcceptLanguage, Authorization, Cookie,
     Expect, From, Host, IfMatch, IfModifiedSince, IfNoneMatch, IfRange,
     IfUnmodifiedSince, MaxForwards, ProxyAuthorization, Referer, Range, Te,
     Translate, UserAgent]

  /** Enum.IsDefined followed by Enum.Parse: the member whose name is exactly
      `name`, if there is one. */
  function HeaderByName(name: string): (r: Option<HttpRequestHeader>)
    ensures r.Some? ==> HeaderName(r.value) == name
    ensures r.None? ==> forall h :: HeaderName(h) != name
  {
    var r := FindByName(name, AllHeaders);
    assert r.None? ==> forall h :: HeaderName(h) != name by {
      forall h ensures r.None? ==> HeaderName(h) != name {
        ListedHeader(h);
      }
    }
    r
  }

  lemma ListedHeader(h: HttpRequestHeader)
    ensures h in AllHeaders
  {
  }

  function FindByName(name: string, hs: seq<HttpRequestHeader>): (r: Option<HttpRequestHeader>)
    ensures r.Some? ==> HeaderName(r.value) == name
    ensures r.None? ==> forall k :: 0 <= k < |hs| ==> HeaderName(hs[k]) != name
  {
    if hs == [] then None
    else if HeaderName(hs[0]) == name then Some(hs[0])
    else FindByName(name, hs[1..])
  }

  const DefaultAcceptLanguage: string := "zh-CN,zh;q=0.9,en;q=0.8,en-GB;q=0.7,en-US;q=0.6"
  const DefaultUserAgent: string :=
    "Mozilla/5.0 (Windows NT 10.0; Win64; x64) AppleWebKit/537.36 (KHTML, like Gecko) "
    + "Chrome/85.0.4183.83 Safari/537.36 Edg/85.0.564.41"
  const DefaultAccept: string :=
    "text/html,application/xhtml+xml,application/xml;q=0.9,image/webp,image/apng,*/*;q=0.8,"
    + "application/signed-exchange;v=b3;q=0.9"

  /** Adds `value` under `key` only when the key is absent. */
  function AddIfAbsent(h: map<HttpRequestHeader, string>, key: HttpRequestHeader, value: string)
    : map<HttpRequestHeader, string>
  {
    if key in h then h else h[key := value]
  }

  /** The header map after the default headers are filled in: the three keys
      are present, every caller-supplied entry keeps its value, and a default
      appears only where the key was missing. */
  function WithDefaults(h: map<HttpRequestHeader, string>): (r: map<HttpRequestHeader, string>)
    ensures r.Keys == h.Keys + {AcceptLanguage, UserAgent, Accept}
    ensures forall k :: k in h ==> r[k] == h[k]
    ensures AcceptLanguage !in h ==> r[AcceptLanguage] == DefaultAcceptLanguage
    ensures UserAgent !in h ==> r[UserAgent] == DefaultUserAgent
    ensures Accept !in h ==> r[Accept] == DefaultAccept
  {
    AddIfAbsent(AddIfAbsent(AddIfAbsent(h, AcceptLanguage, DefaultAcceptLanguage),
                            UserAgent, DefaultUserAgent),
                Accept, DefaultAccept)
  }

  /** Filling the defaults twice changes nothing further. */
  lemma WithDefaultsIdempotent(h: map<HttpRequestHeader, string>)
    ensures WithDefaults(WithDefaults(h)) == WithDefaults(h)
  {
  }
}
