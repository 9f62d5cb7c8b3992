/** The target URL of a GET request: the caller's URL with the Params string
    merged into its query. */
module GetUrl {
  import opened Common
  import opened Text

  /** The parts of System.Uri the merge reads: AbsolutePath and Query. */
  datatype Uri = Uri(absolutePath: string, query: string)

  predicate IsSchemeChar(c: char) {
    ('a' <= c <= 'z') || ('A' <= c <= 'Z') || ('0' <= c <= '9') || c == '+' || c == '-' || c == '.'
  }

  /** Index of the first character of s in cs, or |s|. */
  function FirstOf(s: string, cs: set<char>): (r: nat)
    ensures r <= |s|
    ensures r < |s| ==> s[r] in cs
    ensures forall k :: 0 <= k < r ==> s[k] !in cs
  {
    if s == [] then 0 else if s[0] in cs then 0 else 1 + FirstOf(s[1..], cs)
  }

  /** A URI scheme: one or more letters, digits, '+', '-' or '.'. */
  predicate IsScheme(s: string) {
    s != [] && forall k :: 0 <= k < |s| ==> IsSchemeChar(s[k])
  }

  /** new Uri(url) for an absolute URL scheme://authority[path][?query][#fragment].
      None stands for the UriFormatException of any other text. */
  function ParseUri(url: string): (r: Option<Uri>)
    ensures r.Some? ==> StartsWith(r.value.absolutePath, "/")
    ensures r.Some? ==> r.value.query == "" || StartsWith(r.value.query, "?")
  {
    match IndexOf(url, "://")
    case None => None
    case Some(i) => if IsScheme(url[..i]) then ParseHierarchy(url[i + 3..]) else None
  }

  /** The text after "://": a non-empty authority, then path and query. */
  function ParseHierarchy(after: string): (r: Option<Uri>)
    ensures r.Some? ==> StartsWith(r.value.absolutePath, "/")
    ensures r.Some? ==> r.value.query == "" || StartsWith(r.value.query, "?")
  {
    var authorityEnd := FirstOf(after, {'/', '?', '#'});
    if authorityEnd == 0 then None else Some(PathAndQuery(after[authorityEnd..]))
  }

  /** The path runs to the first '?' or '#' and is "/" when empty; the query
      keeps its leading '?' (so it is "?" for an empty query) and runs to '#'. */
  function PathAndQuery(rest: string): (r: Uri)
    requires rest == [] || rest[0] in {'/', '?', '#'}
    ensures StartsWith(r.absolutePath, "/")
    ensures r.query == "" || StartsWith(r.query, "?")
  {
    var pathEnd := FirstOf(rest, {'?', '#'});
    var path := rest[..pathEnd];
    assert path != "" ==> path[0] == '/';
    var tail := rest[pathEnd..];
    var query := if tail != "" && tail[0] == '?' then tail[..FirstOf(tail, {'#'})] else "";
    Uri(if path == "" then "/" else path, query)
  }

  /** The new query text: the old query (with its '?'), an '&' only when the old
      query holds something and does not already end in '&', then paramStr. */
  function QueryWithParams(query: string, paramStr: string): (r: string)
    ensures StartsWith(r, "?") && EndsWith(r, paramStr)
    ensures StartsWith(query, "?") ==> StartsWith(r, query)
    ensures !StartsWith(query, "?") ==> StartsWith(r, "?" + query)
  {
    (if StartsWith(query, "?") then query else "?" + query)
    + (if EndsWith(query, "&") then ""
       else if query != "" && query != "?" && paramStr != "" then "&" else "")
    + paramStr
  }

  /** The GET URL as the library builds it. With no parameters only the text
      between the first and second '?' is kept as the query; with parameters a
      '/' is inserted whenever the path is the root and the whole URL does not
      end in '/'. */
  function MergeGetUrl(url: string, uri: Uri, paramStr: string): (r: string)
    ensures paramStr == "" ==> StartsWith(url, r)
    ensures paramStr == "" ==> (r == url <==> |SplitChar(url, '?')| <= 2)
    ensures paramStr != "" ==> StartsWith(r, SplitChar(url, '?')[0]) && EndsWith(r, paramStr)
  {
    var base := if '?' in url then SplitChar(url, '?')[0] else url;
    UrlPieces(url);
    if paramStr == "" then
      if '?' in url then base + "?" + SplitChar(url, '?')[1] else base
    else
      var slashed := base + (if uri.absolutePath == "/" && !EndsWith(url, "/") then "/" else "");
      PrefixThenSuffix(base, slashed, QueryWithParams(uri.query, paramStr), paramStr);
      slashed + QueryWithParams(uri.query, paramStr)
  }

  /** A '?' occurs in a URL exactly when splitting it on '?' gives more than
      one piece; the first two pieces, joined by '?', begin the URL and are
      the whole URL exactly when there are no more pieces. */
  lemma UrlPieces(url: string)
    ensures '?' in url <==> |SplitChar(url, '?')| >= 2
    ensures '?' !in url ==> SplitChar(url, '?') == [url]
    ensures var xs := SplitChar(url, '?');
            |xs| >= 2 ==> && StartsWith(url, xs[0] + "?" + xs[1])
                          && (xs[0] + "?" + xs[1] == url <==> |xs| == 2)
  {
    if '?' !in url {
      NoOccurrence(url, '?');
    } else {
      SplitOnPresent(url, '?');
      FirstTwoPieces(SplitChar(url, '?'), '?');
    }
  }

  lemma SplitOnPresent(s: string, c: char)
    requires c in s
    ensures |SplitChar(s, c)| >= 2
  {
    var i :| 0 <= i < |s| && s[i] == c;
    assert OccursAt(s, [c], i) by { assert s[i..i + 1] == [s[i]]; }
  }

  /** The first two pieces of a join, joined again, begin it and are all of
      it exactly when there are only two. */
  lemma {:induction false} FirstTwoPieces(xs: seq<string>, c: char)
    requires |xs| >= 2
    ensures var head := xs[0] + [c] + xs[1];
            StartsWith(Join([c], xs), head) && (head == Join([c], xs) <==> |xs| == 2)
  {
    var head := xs[0] + [c] + xs[1];
    var whole := Join([c], xs);
    var tail := Join([c], xs[1..]);
    assert whole == xs[0] + [c] + tail;
    if |xs| == 2 {
      assert xs[1..] == [xs[1]];
      assert whole == head;
    } else {
      var rest := Join([c], xs[2..]);
      assert tail == xs[1] + [c] + rest by { assert xs[1..][1..] == xs[2..]; }
      Regroup(xs[0] + [c], xs[1], [c], rest);
      assert whole == head + [c] + rest;
      assert whole[..|head|] == head;
      assert |whole| > |head|;
    }
  }

  lemma PrefixThenSuffix(base: string, slashed: string, tail: string, paramStr: string)
    requires StartsWith(slashed, base) && EndsWith(tail, paramStr)
    ensures StartsWith(slashed + tail, base) && EndsWith(slashed + tail, paramStr)
  {
    assert (slashed + tail)[..|base|] == slashed[..|base|];
    assert (slashed + tail)[|slashed + tail| - |paramStr|..] == tail[|tail| - |paramStr|..];
  }

  /** A URL scheme://host/?query, with a host holding none of '/', '?', '#'
      and a query without '#', parses to the root path and "?" + query. */
  lemma ParseRootWithQuery(scheme: string, host: string, query: string)
    requires IsRootPrefix(scheme, host) && '#' !in query
    ensures ParseUri(scheme + "://" + host + "/?" + query) == Some(Uri("/", "?" + query))
  {
    var url := scheme + "://" + host + "/?" + query;
    forall k | 0 <= k < |scheme| ensures !OccursAt(url, "://", k) {
      assert url[k] == scheme[k];
      assert url[k..k + 3][0] == url[k];
    }
    assert url[|scheme|..|scheme| + 3] == "://";
    assert OccursAt(url, "://", |scheme|);
    assert IndexOf(url, "://") == Some(|scheme|);
    assert url[..|scheme|] == scheme;
    assert url[|scheme| + 3..] == host + "/?" + query;
    RootHierarchy(host, query);
  }

  lemma RootHierarchy(host: string, query: string)
    requires host != [] && '/' !in host && '?' !in host && '#' !in host && '#' !in query
    ensures ParseHierarchy(host + "/?" + query) == Some(Uri("/", "?" + query))
  {
    var after := host + "/?" + query;
    FirstOfAt(host, "/?" + query, {'/', '?', '#'});
    assert after[|host|..] == "/?" + query;
    RootPathAndQuery(query);
  }

  lemma RootPathAndQuery(query: string)
    requires '#' !in query
    ensures PathAndQuery("/?" + query) == Uri("/", "?" + query)
  {
    var rest := "/?" + query;
    FirstOfAt("/", "?" + query, {'?', '#'});
    assert rest == "/" + ("?" + query);
    FirstOfAt("?" + query, [], {'#'});
    assert ("?" + query) + [] == "?" + query;
  }

  /** FirstOf finds the end of a prefix that holds none of the characters. */
  lemma {:induction false} FirstOfAt(a: string, b: string, cs: set<char>)
    requires forall k :: 0 <= k < |a| ==> a[k] !in cs
    requires b == [] || b[0] in cs
    ensures FirstOf(a + b, cs) == |a|
  {
    if a != [] {
      assert (a + b)[1..] == a[1..] + b;
      FirstOfAt(a[1..], b, cs);
    }
  }

  /** The scheme and host of a URL whose path is the root. */
  predicate IsRootPrefix(scheme: string, host: string) {
    && scheme != [] && (forall k :: 0 <= k < |scheme| ==> IsSchemeChar(scheme[k]))
    && host != [] && '/' !in host && '?' !in host && '#' !in host
  }

  /** The text before the query of a URL scheme://host/ holds no '?'. */
  lemma RootPrefixNoQuery(scheme: string, host: string)
    requires IsRootPrefix(scheme, host)
    ensures '?' !in scheme + "://" + host + "/"
  {
    var prefix := scheme + "://" + host + "/";
    forall k | 0 <= k < |prefix| ensures prefix[k] != '?' {
      if k < |scheme| {
        assert prefix[k] == scheme[k];
      } else if |scheme| + 3 <= k < |scheme| + 3 + |host| {
        assert prefix[k] == host[k - |scheme| - 3];
      }
    }
  }

  /** The part before the first '?' of a URL scheme://host/?query. */
  lemma RootBase(scheme: string, host: string, query: string)
    requires IsRootPrefix(scheme, host)
    ensures var url := scheme + "://" + host + "/?" + query;
            '?' in url && SplitChar(url, '?')[0] == scheme + "://" + host + "/"
  {
    var prefix := scheme + "://" + host + "/";
    RootPrefixNoQuery(scheme, host);
    FirstOccurrence(prefix, '?', query);
    assert scheme + "://" + host + "/?" + query == prefix + ['?'] + query;
    assert (prefix + ['?'] + query)[..|prefix|] == prefix;
    assert (prefix + ['?'] + query)[|prefix|] == '?';
  }

  /** A query with two '?' loses everything after the second one when no
      parameters are added: http://h/?a=1?b=2 is sent as http://h/?a=1. */
  lemma SecondQuestionMarkDropped(scheme: string, host: string, a: string, b: string)
    requires IsRootPrefix(scheme, host)
    requires '?' !in a && '?' !in b && '#' !in a && '#' !in b && b != ""
    ensures var url := scheme + "://" + host + "/?" + a + "?" + b;
            && ParseUri(url) == Some(Uri("/", "?" + a + "?" + b))
            && MergeGetUrl(url, Uri("/", "?" + a + "?" + b), "") == scheme + "://" + host + "/?" + a
            && scheme + "://" + host + "/?" + a != url
  {
    ParseTwoQueries(scheme, host, a, b);
    MergeTwoQueries(scheme, host, a, b);
  }

  lemma ParseTwoQueries(scheme: string, host: string, a: string, b: string)
    requires IsRootPrefix(scheme, host) && '#' !in a && '#' !in b
    ensures ParseUri(scheme + "://" + host + "/?" + a + "?" + b) == Some(Uri("/", "?" + a + "?" + b))
  {
    var q := a + "?" + b;
    assert '#' !in q;
    ParseRootWithQuery(scheme, host, q);
    Regroup(scheme + "://" + host + "/?", a, "?", b);
    Regroup("?", a, "?", b);
  }

  lemma Regroup(x: string, a: string, y: string, b: string)
    ensures x + (a + y + b) == x + a + y + b
  {
  }

  lemma MergeTwoQueries(scheme: string, host: string, a: string, b: string)
    requires IsRootPrefix(scheme, host) && '?' !in a && '?' !in b
    ensures var url := scheme + "://" + host + "/?" + a + "?" + b;
            MergeGetUrl(url, Uri("/", "?" + a + "?" + b), "") == scheme + "://" + host + "/?" + a
  {
    var url := scheme + "://" + host + "/?" + a + "?" + b;
    var prefix := scheme + "://" + host + "/";
    RootPrefixNoQuery(scheme, host);
    assert scheme + "://" + host + "/?" == prefix + "?";
    assert url == prefix + "?" + a + "?" + b;
    SplitThree(prefix, a, b);
    MergeWithoutParams(url, Uri("/", "?" + a + "?" + b));
  }

  /** Three pieces free of '?' joined by '?' split back into them. */
  lemma SplitThree(p: string, a: string, b: string)
    requires '?' !in p && '?' !in a && '?' !in b
    ensures var s := p + "?" + a + "?" + b;
            '?' in s && SplitChar(s, '?') == [p, a, b]
  {
    var s := p + "?" + a + "?" + b;
    assert s[|p|] == '?';
    assert [p, a, b][1..] == [a, b] && [a, b][1..] == [b];
    assert Join(['?'], [a, b]) == a + "?" + b;
    assert s == Join(['?'], [p, a, b]);
    SplitJoin([p, a, b], '?');
  }

  /** With no parameters the URL keeps the pieces before the first and the
      second '?'. */
  lemma MergeWithoutParams(url: string, uri: Uri)
    requires '?' in url && |SplitChar(url, '?')| >= 2
    ensures MergeGetUrl(url, uri, "") == SplitChar(url, '?')[0] + "?" + SplitChar(url, '?')[1]
  {
  }

  /** With parameters, a URL whose path is the root and which carries a query
      gets a second '/', because the test looks at the end of the whole URL
      rather than of the part before '?': http://example.test/?a=1 with b=2 is
      sent as http://example.test//?a=1&b=2. */
  lemma DoubledSlash(scheme: string, host: string, query: string, paramStr: string)
    requires IsRootPrefix(scheme, host)
    requires query != "" && '#' !in query && query[|query| - 1] != '&' && query[|query| - 1] != '/'
    requires paramStr != ""
    ensures var url := scheme + "://" + host + "/?" + query;
            && ParseUri(url) == Some(Uri("/", "?" + query))
            && MergeGetUrl(url, Uri("/", "?" + query), paramStr)
               == scheme + "://" + host + "//?" + query + "&" + paramStr
  {
    ParseRootWithQuery(scheme, host, query);
    MergeRootDoubled(scheme, host, query, paramStr);
  }

  lemma MergeRootDoubled(scheme: string, host: string, query: string, paramStr: string)
    requires IsRootPrefix(scheme, host)
    requires query != "" && query[|query| - 1] != '&' && query[|query| - 1] != '/'
    requires paramStr != ""
    ensures var url := scheme + "://" + host + "/?" + query;
            MergeGetUrl(url, Uri("/", "?" + query), paramStr)
            == scheme + "://" + host + "//?" + query + "&" + paramStr
  {
    var url := scheme + "://" + host + "/?" + query;
    var base := scheme + "://" + host + "/";
    RootBase(scheme, host, query);
    assert !EndsWith(url, "/") by { assert url[|url| - 1] == query[|query| - 1]; }
    RootQueryWithParams(query, paramStr);
    MergeAddsSlash(url, base, Uri("/", "?" + query), paramStr);
    RootDoubleSlashJoin(scheme + "://" + host, query, paramStr);
  }

  /** With parameters, a root URL that does not end in '/' gets one after its
      part before '?'. */
  lemma MergeAddsSlash(url: string, base: string, uri: Uri, paramStr: string)
    requires paramStr != "" && SplitChar(url, '?')[0] == base
    requires uri.absolutePath == "/" && !EndsWith(url, "/")
    ensures MergeGetUrl(url, uri, paramStr) == base + "/" + QueryWithParams(uri.query, paramStr)
  {
    MergeWithParams(url, uri, paramStr);
  }

  lemma RootDoubleSlashJoin(prefix: string, query: string, paramStr: string)
    ensures (prefix + "/") + "/" + ("?" + query + "&" + paramStr) == prefix + "//?" + query + "&" + paramStr
  {
    RootJoin(prefix + "/", "/", query, paramStr);
    assert "/" + "?" == "/?";
    assert prefix + "/" + "/?" == prefix + "//?";
  }

  /** The query a merge adds to a URL whose query text is query. */
  lemma RootQueryWithParams(query: string, paramStr: string)
    requires query != "" && query[|query| - 1] != '&' && paramStr != ""
    ensures QueryWithParams("?" + query, paramStr) == "?" + query + "&" + paramStr
  {
    assert QueryText("?" + query) == query;
    assert !EndsWith(query, "&");
    QueryWithParamsText("?" + query, paramStr);
  }

  /** With parameters the URL is its part before the first '?', the '/' the
      root test may add, and the merged query. */
  lemma MergeWithParams(url: string, uri: Uri, paramStr: string)
    requires paramStr != ""
    ensures MergeGetUrl(url, uri, paramStr)
            == SplitChar(url, '?')[0] + (if uri.absolutePath == "/" && !EndsWith(url, "/") then "/" else "")
               + QueryWithParams(uri.query, paramStr)
  {
    if '?' !in url {
      NoOccurrence(url, '?');
    }
  }

  /** The corrected merge of the same URL: one '/', then the old query, '&' and
      the parameters. */
  lemma SingleSlash(scheme: string, host: string, query: string, paramStr: string)
    requires IsRootPrefix(scheme, host)
    requires query != "" && '#' !in query && query[|query| - 1] != '&'
    requires paramStr != ""
    ensures var url := scheme + "://" + host + "/?" + query;
            && ParseUri(url) == Some(Uri("/", "?" + query))
            && MergeGetUrlFixed(url, Uri("/", "?" + query), paramStr)
               == scheme + "://" + host + "/?" + query + "&" + paramStr
  {
    ParseRootWithQuery(scheme, host, query);
    MergeRootSingle(scheme, host, query, paramStr);
  }

  lemma MergeRootSingle(scheme: string, host: string, query: string, paramStr: string)
    requires IsRootPrefix(scheme, host)
    requires query != "" && query[|query| - 1] != '&'
    requires paramStr != ""
    ensures var url := scheme + "://" + host + "/?" + query;
            MergeGetUrlFixed(url, Uri("/", "?" + query), paramStr)
            == scheme + "://" + host + "/?" + query + "&" + paramStr
  {
    var url := scheme + "://" + host + "/?" + query;
    var base := scheme + "://" + host + "/";
    RootBase(scheme, host, query);
    assert EndsWith(base, "/") by { assert base[|base| - 1] == '/'; }
    RootQueryWithParams(query, paramStr);
    MergeFixedAfterSlash(url, base, Uri("/", "?" + query), paramStr);
    RootSlashJoin(scheme + "://" + host, query, paramStr);
  }

  /** With parameters, a URL whose part before '?' already ends in '/' keeps
      that part and gets the merged query. */
  lemma MergeFixedAfterSlash(url: string, base: string, uri: Uri, paramStr: string)
    requires paramStr != "" && SplitChar(url, '?')[0] == base && EndsWith(base, "/")
    ensures MergeGetUrlFixed(url, uri, paramStr) == base + QueryWithParams(uri.query, paramStr)
  {
    assert base + "" == base;
  }

  /** The root URL put back together from its part before '?' and its
      merged query. */
  lemma RootJoin(prefix: string, slash: string, query: string, paramStr: string)
    ensures (prefix + slash) + ("?" + query + "&" + paramStr) == prefix + (slash + "?") + query + "&" + paramStr
  {
  }

  lemma RootSlashJoin(prefix: string, query: string, paramStr: string)
    ensures (prefix + "/") + ("?" + query + "&" + paramStr) == prefix + "/?" + query + "&" + paramStr
  {
    RootJoin(prefix, "/", query, paramStr);
    assert "/" + "?" == "/?";
  }

  /** The GET URL with both defects removed: without parameters the URL is
      used as given; with parameters the '/' is inserted only when the part
      before the query does not already end in '/'. */
  function MergeGetUrlFixed(url: string, uri: Uri, paramStr: string): (r: string)
    ensures paramStr == "" ==> r == url
    ensures paramStr != "" ==> StartsWith(r, SplitChar(url, '?')[0]) && EndsWith(r, paramStr)
  {
    if paramStr == "" then url
    else
      var base := SplitChar(url, '?')[0];
      var slashed := base + (if uri.absolutePath == "/" && !EndsWith(base, "/") then "/" else "");
      PrefixThenSuffix(base, slashed, QueryWithParams(uri.query, paramStr), paramStr);
      slashed + QueryWithParams(uri.query, paramStr)
  }

  /** The query's text without its leading '?'. */
  function QueryText(query: string): string {
    if StartsWith(query, "?") then query[1..] else query
  }

  /** The '&'-separated fields of a query text. */
  function Fields(text: string): seq<string> {
    if text == "" then [] else SplitChar(text, '&')
  }

  /** The text after the first '?' of a URL. */
  function QueryOf(url: string): string
    requires '?' in url
  {
    var i := FirstOf(url, {'?'});
    url[i + 1..]
  }

  lemma JoinConcat(xs: seq<string>, ys: seq<string>, c: char)
    requires xs != [] && ys != []
    ensures Join([c], xs + ys) == Join([c], xs) + [c] + Join([c], ys)
  {
    if |xs| > 1 {
      JoinConcat(xs[1..], ys, c);
      assert (xs + ys)[1..] == xs[1..] + ys;
    } else {
      assert (xs + ys)[1..] == ys;
    }
  }

  /** Splitting a text made of two parts around c gives the fields of the
      first part followed by the fields of the second. */
  lemma SplitAround(x: string, y: string, c: char)
    ensures SplitChar(x + [c] + y, c) == SplitChar(x, c) + SplitChar(y, c)
  {
    var xs, ys := SplitChar(x, c), SplitChar(y, c);
    JoinConcat(xs, ys, c);
    SplitJoin(xs + ys, c);
  }

  /** The query a merge with parameters produces, after its '?'. */
  lemma QueryWithParamsText(query: string, paramStr: string)
    requires query == "" || StartsWith(query, "?")
    requires paramStr != ""
    requires QueryText(query) == "" || !EndsWith(QueryText(query), "&")
    ensures var text := QueryText(query);
            QueryWithParams(query, paramStr)
            == "?" + (if text == "" then paramStr else text + "&" + paramStr)
  {
    var text := QueryText(query);
    if query != "" {
      assert query == "?" + text;
      if text != "" {
        assert !EndsWith(query, "&") by { assert query[|query| - 1] == text[|text| - 1]; }
      }
    }
  }

  /** With parameters, the merged URL's query is the original query's fields
      followed by the parameters' fields: nothing of the old query is lost and
      no empty field is put between them. */
  lemma MergedQueryFields(url: string, uri: Uri, paramStr: string)
    requires uri.query == "" || StartsWith(uri.query, "?")
    requires paramStr != ""
    requires QueryText(uri.query) == "" || !EndsWith(QueryText(uri.query), "&")
    ensures var r := MergeGetUrlFixed(url, uri, paramStr);
            '?' in r && Fields(QueryOf(r)) == Fields(QueryText(uri.query)) + SplitChar(paramStr, '&')
  {
    var text := QueryText(uri.query);
    MergedQuery(url, uri, paramStr);
    assert JoinQuery(text, paramStr) == if text == "" then paramStr else text + "&" + paramStr;
    FieldsAppend(text, paramStr);
  }

  /** A query text that already ends in '&' takes the parameters directly,
      with no '&' of its own. */
  lemma QueryAfterAmpersand(query: string, paramStr: string)
    requires query == "" || StartsWith(query, "?")
    requires EndsWith(QueryText(query), "&")
    ensures QueryWithParams(query, paramStr) == "?" + QueryText(query) + paramStr
  {
    var text := QueryText(query);
    assert query == "?" + text;
    assert EndsWith(query, "&") by { assert query[|query| - 1] == text[|text| - 1]; }
  }

  /** The query text a merge with parameters should give: the old text, an
      '&' only where that text holds something and does not already end in
      '&', and the parameters. */
  function JoinQuery(text: string, paramStr: string): (r: string)
    ensures StartsWith(r, text) && EndsWith(r, paramStr)
    ensures |r| - |text| - |paramStr| == (if text == "" || EndsWith(text, "&") then 0 else 1)
  {
    var glue := if text == "" || EndsWith(text, "&") then "" else "&";
    assert (text + glue + paramStr)[..|text|] == text;
    assert (text + glue + paramStr)[|text| + |glue|..] == paramStr;
    text + glue + paramStr
  }

  /** With parameters, whatever the old query, the merged URL's query is the
      old query's text joined to the parameters. */
  lemma MergedQuery(url: string, uri: Uri, paramStr: string)
    requires uri.query == "" || StartsWith(uri.query, "?")
    requires paramStr != ""
    ensures var r := MergeGetUrlFixed(url, uri, paramStr);
            '?' in r && QueryOf(r) == JoinQuery(QueryText(uri.query), paramStr)
  {
    var base := SplitChar(url, '?')[0];
    var slash := if uri.absolutePath == "/" && !EndsWith(base, "/") then "/" else "";
    var body := JoinQuery(QueryText(uri.query), paramStr);
    var prefix := base + slash;
    var tail := QueryWithParams(uri.query, paramStr);
    FixedShape(url, uri, paramStr);
    QueryWithParamsBody(uri.query, paramStr);
    QueryOfAfter(prefix, body);
  }

  /** The merged query after its '?', in every case. */
  lemma QueryWithParamsBody(query: string, paramStr: string)
    requires query == "" || StartsWith(query, "?")
    requires paramStr != ""
    ensures QueryWithParams(query, paramStr) == "?" + JoinQuery(QueryText(query), paramStr)
  {
    var text := QueryText(query);
    if text != "" && EndsWith(text, "&") {
      QueryAfterAmpersand(query, paramStr);
    } else {
      QueryWithParamsText(query, paramStr);
      assert text == "" ==> text + "" + paramStr == paramStr;
    }
  }

  /** With parameters the corrected URL is the part before the first '?', the
      '/' the root test may add, and the merged query. */
  lemma FixedShape(url: string, uri: Uri, paramStr: string)
    requires paramStr != ""
    ensures var base := SplitChar(url, '?')[0];
            var slash := if uri.absolutePath == "/" && !EndsWith(base, "/") then "/" else "";
            && '?' !in base + slash
            && MergeGetUrlFixed(url, uri, paramStr) == (base + slash) + QueryWithParams(uri.query, paramStr)
  {
  }

  /** The fields of a query text extended by '&' and more fields. */
  lemma FieldsAppend(text: string, paramStr: string)
    requires paramStr != ""
    ensures Fields(if text == "" then paramStr else text + "&" + paramStr)
            == Fields(text) + SplitChar(paramStr, '&')
  {
    if text != "" {
      SplitAround(text, paramStr, '&');
      assert text + "&" + paramStr == text + ['&'] + paramStr;
    }
  }

  lemma QueryOfAfter(prefix: string, body: string)
    requires '?' !in prefix
    ensures '?' in prefix + "?" + body && QueryOf(prefix + "?" + body) == body
    ensures '?' in prefix + ("?" + body) && QueryOf(prefix + ("?" + body)) == body
  {
    var r := prefix + "?" + body;
    FirstOfAt(prefix, "?" + body, {'?'});
    assert r == prefix + ("?" + body);
    assert r[|prefix|] == '?';
    assert r[|prefix| + 1..] == body;
  }
}
