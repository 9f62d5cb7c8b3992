/** Parsing of a raw HTTP request transcript (XHRBase): the split into head
    and body, the request line, and the routing of each header line into the
    known-header table, the custom-header table or the host. */
module Transcript {
  import opened Common
  import opened Text
  import opened Headers
  import opened Body

  const HeadSeparator: string := "\r\n\r\n"

  /** A transcript cut into its request line, its header lines and its body
      (present when text follows the first blank line). */
  datatype Sections = Sections(requestLine: string, headerLines: seq<string>, body: Option<string>)

  /** The text before the first blank line once leading blank lines are
      skipped: the part the header lines are read from ("" when nothing is
      left). */
  function HeadPart(data: string): (r: string)
    ensures !Contains(r, HeadSeparator)
    ensures var rest := DropLeading(data, HeadSeparator); |r| <= |rest| && r == rest[..|r|]
  {
    var parts := SplitTwoNonEmpty(data, HeadSeparator);
    if parts == [] then "" else HeadPrefix(data, parts)
  }

  function HeadPrefix(data: string, parts: seq<string>): (r: string)
    requires parts == SplitTwoNonEmpty(data, HeadSeparator) && parts != []
    ensures r == parts[0] && !Contains(r, HeadSeparator)
    ensures var rest := DropLeading(data, HeadSeparator); |r| <= |rest| && r == rest[..|r|]
  {
    var rest := DropLeading(data, HeadSeparator);
    match IndexOf(rest, HeadSeparator)
    case None => parts[0]
    case Some(k) => assert parts[0] == rest[..k]; parts[0]
  }

  /** The split as the library performs it. A transcript that is empty or made
      only of blank-line separators has no first part, and indexing it raises
      an index error before the "at least one line" test is reached; a first
      part without a non-empty line is the URL error. */
  function SplitSections(data: string): (r: Result<Sections, Fault>)
    ensures r.Err? && r.error == Unhandled(IndexOutOfRange) <==> DropLeading(data, HeadSeparator) == ""
    ensures r.Err? && r.error == Reported(UrlParseError)
            <==> DropLeading(data, HeadSeparator) != "" && SplitNonEmpty(HeadPart(data), '\n') == []
    ensures r.Err? ==> r.error in {Unhandled(IndexOutOfRange), Reported(UrlParseError)}
    ensures r.Ok? <==> SplitNonEmpty(HeadPart(data), '\n') != []
    ensures r.Ok? ==> [r.value.requestLine] + r.value.headerLines == SplitNonEmpty(HeadPart(data), '\n')
    ensures r.Ok? ==> r.value.requestLine != "" && '\n' !in r.value.requestLine
    ensures r.Ok? ==> forall k :: 0 <= k < |r.value.headerLines| ==>
                        r.value.headerLines[k] != "" && '\n' !in r.value.headerLines[k]
    ensures r.Ok? ==> (r.value.body.Some? ==> r.value.body.value != "")
  {
    var parts := SplitTwoNonEmpty(data, HeadSeparator);
    if parts == [] then
      EmptyHeadHasNoLines();
      Err(Unhandled(IndexOutOfRange))
    else
      assert HeadPart(data) == parts[0];
      FromLines(SplitNonEmpty(parts[0], '\n'), if |parts| == 2 then Some(parts[1]) else None)
  }

  /** The sections once the head's lines and the body are known: the first
      line is the request line, and no line at all is the URL error. */
  function FromLines(lines: seq<string>, body: Option<string>): (r: Result<Sections, Fault>)
    requires forall k :: 0 <= k < |lines| ==> lines[k] != "" && '\n' !in lines[k]
    requires body.Some? ==> body.value != ""
    ensures r.Ok? <==> lines != []
    ensures r.Err? ==> r.error == Reported(UrlParseError)
    ensures r.Ok? ==> [r.value.requestLine] + r.value.headerLines == lines && r.value.body == body
    ensures lines != [] ==> r == Ok(Sections(lines[0], lines[1..], body))
    ensures r.Ok? ==> r.value.requestLine != "" && '\n' !in r.value.requestLine
    ensures r.Ok? ==> forall k :: 0 <= k < |r.value.headerLines| ==>
                        r.value.headerLines[k] != "" && '\n' !in r.value.headerLines[k]
  {
    if lines == [] then Err(Reported(UrlParseError))
    else
      assert [lines[0]] + lines[1..] == lines;
      Ok(Sections(lines[0], lines[1..], body))
  }

  lemma EmptyHeadHasNoLines()
    ensures SplitNonEmpty("", '\n') == []
  {
    assert SplitChar("", '\n') == [""] by {
      var r := SplitChar("", '\n');
      assert Join(['\n'], r) == "";
    }
  }

  /** The empty transcript escapes as an index error instead of the library's
      own "at least one line" URL error. */
  lemma EmptyTranscriptIndexError()
    ensures SplitSections("") == Err(Unhandled(IndexOutOfRange))
  {
    assert DropLeading("", HeadSeparator) == "";
  }

  /** The split with every transcript that has no line rejected by the
      "at least one line" URL error. */
  function SplitSectionsFixed(data: string): (r: Result<Sections, Fault>)
    ensures r.Err? ==> r.error == Reported(UrlParseError)
    ensures r.Ok? <==> SplitNonEmpty(HeadPart(data), '\n') != []
    ensures r.Ok? ==> [r.value.requestLine] + r.value.headerLines == SplitNonEmpty(HeadPart(data), '\n')
    ensures r.Ok? ==> r.value.requestLine != "" && '\n' !in r.value.requestLine
    ensures r.Ok? ==> forall k :: 0 <= k < |r.value.headerLines| ==>
                        r.value.headerLines[k] != "" && '\n' !in r.value.headerLines[k]
    ensures r.Ok? ==> (r.value.body.Some? ==> r.value.body.value != "")
  {
    var split := SplitSections(data);
    if split.Err? then Err(Reported(UrlParseError)) else split
  }

  /** The corrected split agrees with the library's wherever the library does
      not raise the index error, and reports the empty transcript as a URL
      error. */
  lemma SplitSectionsFixedAgrees(data: string)
    ensures SplitSections(data).Err? && SplitSections(data).error == Unhandled(IndexOutOfRange)
            ==> SplitSectionsFixed(data) == Err(Reported(UrlParseError))
    ensures !(SplitSections(data).Err? && SplitSections(data).error == Unhandled(IndexOutOfRange))
            ==> SplitSectionsFixed(data) == SplitSections(data)
    ensures SplitSectionsFixed("") == Err(Reported(UrlParseError))
  {
    assert DropLeading("", HeadSeparator) == "";
  }

  /** A line as a transcript writes it: not empty, with neither '\n' nor '\r'. */
  predicate IsPlainLine(s: string) {
    s != [] && '\n' !in s && '\r' !in s
  }

  /** A transcript written as its lines joined by '\n', then, when there is a
      body, the blank line and the body, splits back into those lines and
      that body. */
  lemma SplitSectionsRoundTrip(lines: seq<string>, body: Option<string>)
    requires |lines| >= 1 && forall k :: 0 <= k < |lines| ==> IsPlainLine(lines[k])
    requires body.Some? ==> body.value != "" && !StartsWith(body.value, HeadSeparator)
    ensures var head := Join("\n", lines);
            var data := if body.Some? then head + HeadSeparator + body.value else head;
            && SplitSections(data) == Ok(Sections(lines[0], lines[1..], body))
            && SplitSectionsFixed(data) == Ok(Sections(lines[0], lines[1..], body))
  {
    var head := Join("\n", lines);
    var data := if body.Some? then head + HeadSeparator + body.value else head;
    JoinAvoids("\n", lines, '\r');
    JoinStartsWithFirstLine(lines);
    assert HeadSeparator[0] == '\r';
    HeadLines(lines);
    var parts := if body.Some? then [head, body.value] else [head];
    if body.Some? {
      SplitTwoAt(head, HeadSeparator, body.value);
    } else {
      SplitTwoWhole(head, HeadSeparator);
    }
    assert SplitTwoNonEmpty(data, HeadSeparator) == parts;
    assert (if |parts| == 2 then Some(parts[1]) else None) == body;
    assert SplitSections(data) == FromLines(lines, body);
  }

  lemma JoinStartsWithFirstLine(lines: seq<string>)
    requires |lines| >= 1 && lines[0] != []
    ensures Join("\n", lines) != [] && Join("\n", lines)[0] == lines[0][0]
  {
  }

  lemma HeadLines(lines: seq<string>)
    requires |lines| >= 1 && forall k :: 0 <= k < |lines| ==> IsPlainLine(lines[k])
    ensures SplitNonEmpty(Join("\n", lines), '\n') == lines
  {
    assert "\n" == ['\n'];
    SplitJoin(lines, '\n');
    NonEmptyKeeps(lines);
  }

  /** The request line's method and target. */
  datatype RequestLine = RequestLine(verb: string, target: string)

  /** The request line's words: trimmed, every pair of spaces deleted, split
      on ' '. */
  function Words(line: string): (r: seq<string>)
    ensures |r| >= 1 && forall k :: 0 <= k < |r| ==> ' ' !in r[k]
  {
    SplitChar(RemoveDoubleSpaces(Trim(line)), ' ')
  }

  /** The first and second words are the method and the target; a third word
      (the protocol) must exist and is ignored. */
  function ParseRequestLine(line: string): (r: Result<RequestLine, Fault>)
    ensures r.Err? <==> |Words(line)| < 3
    ensures r.Err? ==> r.error == Reported(UrlParseError)
    ensures r.Ok? ==> r.value == RequestLine(Words(line)[0], Words(line)[1])
    ensures r.Ok? ==> ' ' !in r.value.verb && ' ' !in r.value.target
  {
    var words := Words(line);
    if |words| < 3 then Err(Reported(UrlParseError)) else Ok(RequestLine(words[0], words[1]))
  }

  /** A word: non-empty and free of white space. */
  predicate IsWord(s: string) {
    s != [] && forall k :: 0 <= k < |s| ==> !IsWhiteSpace(s[k])
  }

  lemma {:induction false} NoDoubleSpaces(s: string)
    requires forall k :: 0 <= k < |s| - 1 ==> !(s[k] == ' ' && s[k + 1] == ' ')
    ensures RemoveDoubleSpaces(s) == s
  {
    if s != [] {
      NoDoubleSpaces(s[1..]);
    }
  }

  /** A request line written as method, target and protocol separated by
      single spaces parses back to its method and target. */
  lemma RequestLineRoundTrip(verb: string, target: string, protocol: string)
    requires IsWord(verb) && IsWord(target) && IsWord(protocol)
    ensures ParseRequestLine(verb + " " + target + " " + protocol) == Ok(RequestLine(verb, target))
  {
    var line := verb + " " + target + " " + protocol;
    TrimIdentity(line);
    SpacedWordsUnchanged(verb, target, protocol);
    SpacedWordsSplit(verb, target, protocol);
  }

  lemma SpacedWordsUnchanged(verb: string, target: string, protocol: string)
    requires IsWord(verb) && IsWord(target) && IsWord(protocol)
    ensures var line := verb + " " + target + " " + protocol; RemoveDoubleSpaces(line) == line
  {
    var line := verb + " " + target + " " + protocol;
    assert IsWhiteSpace(' ');
    forall k | 0 <= k < |line| - 1 ensures !(line[k] == ' ' && line[k + 1] == ' ') {
      if k < |verb| {
        assert line[k] == verb[k];
      } else if k == |verb| {
        assert line[k + 1] == target[0];
      } else if k < |verb| + 1 + |target| {
        assert line[k] == target[k - |verb| - 1];
      } else {
        assert line[k + 1] == protocol[k - |verb| - |target| - 1];
      }
    }
    NoDoubleSpaces(line);
  }

  lemma SpacedWordsSplit(verb: string, target: string, protocol: string)
    requires IsWord(verb) && IsWord(target) && IsWord(protocol)
    ensures SplitChar(verb + " " + target + " " + protocol, ' ') == [verb, target, protocol]
  {
    assert IsWhiteSpace(' ');
    assert ' ' !in verb && ' ' !in target && ' ' !in protocol;
    assert [verb, target, protocol][1..] == [target, protocol];
    assert [target, protocol][1..] == [protocol];
    assert Join([' '], [target, protocol]) == target + " " + protocol;
    assert verb + " " + target + " " + protocol == Join([' '], [verb, target, protocol]);
    SplitJoin([verb, target, protocol], ' ');
  }

  /** A header line with its surrounding white space (and a trailing '\r')
      removed. */
  function CleanLine(line: string): string {
    if EndsWith(line, "\r") then TrimEndChar(Trim(line), '\r') else Trim(line)
  }

  /** The '\r' test changes nothing: '\r' is white space, so trimming has
      already removed it. */
  lemma CleanLineIsTrim(line: string)
    ensures CleanLine(line) == Trim(line)
  {
    var t := Trim(line);
    if t != [] {
      assert t[|t| - 1] != '\r' by { assert IsWhiteSpace('\r'); }
    }
  }

  /** A header line's key and value: around the first ':' of the cleaned
      line, both trimmed; a line with no ':' is all key and has the empty
      value. */
  function SplitHeaderLine(line: string): (r: (string, string))
    ensures ':' in CleanLine(line) ==> ':' !in r.0
    ensures ':' !in CleanLine(line) ==> r == (CleanLine(line), "")
  {
    KeyAndValue(CleanLine(line))
  }

  function KeyAndValue(current: string): (r: (string, string))
    ensures ':' in current ==> ':' !in r.0
    ensures ':' !in current ==> r == (current, "")
  {
    match IndexOf(current, [':'])
    case None =>
      assert ':' !in current by {
        forall k | 0 <= k < |current| ensures current[k] != ':' {
          assert !OccursAt(current, [':'], k);
        }
      }
      (current, "")
    case Some(i) =>
      assert current[i] == ':' by { assert current[i..i + 1][0] == current[i]; }
      var before := current[..i];
      assert ':' !in before by {
        forall k | 0 <= k < i ensures before[k] != ':' {
          assert !OccursAt(current, [':'], k);
          assert current[k..k + 1][0] == before[k];
        }
      }
      var key := Trim(before);
      assert ':' !in key;
      (key, Trim(current[i + 1..]))
  }

  /** A header line written as "Key: Value" splits back into its key and value. */
  lemma HeaderLineRoundTrip(key: string, value: string)
    requires key != [] && ':' !in key && !IsWhiteSpace(key[0]) && !IsWhiteSpace(key[|key| - 1])
    requires value != [] && !IsWhiteSpace(value[0]) && !IsWhiteSpace(value[|value| - 1])
    ensures SplitHeaderLine(key + ": " + value) == (key, value)
  {
    var line := key + ": " + value;
    TrimIdentity(line);
    CleanLineIsTrim(line);
    assert line == key + [':'] + (" " + value);
    FirstOccurrence(key, ':', " " + value);
    assert IndexOf(line, [':']) == Some(|key|);
    assert line[..|key|] == key;
    TrimIdentity(key);
    assert line[|key| + 1..] == " " + value;
    assert IsWhiteSpace(' ');
    assert TrimStart(" " + value) == TrimStart(value) by { assert (" " + value)[1..] == value; }
    TrimIdentity(value);
  }

  /** Where a header line goes: the host, nowhere (Content-Length and
      Accept-Encoding are dropped), the known-header table, or the
      custom-header table. */
  datatype Route =
    | ToHost(value: string)
    | Dropped
    | ToHeader(key: string, header: HttpRequestHeader, value: string)
    | ToCustom(key: string, value: string)

  /** Host, Content-Length and Accept-Encoding are recognised in any case; a
      known header only by its exact .NET name once '-' is deleted. */
  function Classify(key: string, value: string): (r: Route)
    ensures r.ToHost? <==> ToLower(key) == "host"
    ensures r.ToHost? ==> r.value == value
    ensures r.Dropped? <==> ToLower(key) in {"content-length", "accept-encoding"}
    ensures r.ToHeader? <==> ToLower(key) !in {"host", "content-length", "accept-encoding"}
                             && HeaderByName(RemoveChar(key, '-')).Some?
    ensures r.ToHeader? ==> r.key == key && r.value == value
                            && HeaderName(r.header) == RemoveChar(key, '-')
    ensures r.ToCustom? ==> r == ToCustom(key, value)
  {
    var lower := ToLower(key);
    if lower == "host" then ToHost(value)
    else if lower == "content-length" || lower == "accept-encoding" then Dropped
    else match HeaderByName(RemoveChar(key, '-'))
      case Some(h) => ToHeader(key, h, value)
      case None => ToCustom(key, value)
  }

  function RouteOf(line: string): Route {
    var kv := SplitHeaderLine(line);
    Classify(kv.0, kv.1)
  }

  /** The route of every header line, in order. */
  function Routes(lines: seq<string>): (r: seq<Route>)
    ensures |r| == |lines|
  {
    seq(|lines|, i requires 0 <= i < |lines| => RouteOf(lines[i]))
  }

  /** No key is sent both to the known-header table and to the custom table. */
  predicate KeysConsistent(routes: seq<Route>) {
    forall i, j :: 0 <= i < |routes| && 0 <= j < |routes| && routes[i].ToHeader? && routes[j].ToCustom?
                   ==> routes[i].key != routes[j].key
  }

  /** Whether a key names a known header depends on the key alone. */
  lemma RoutesConsistent(lines: seq<string>)
    ensures KeysConsistent(Routes(lines))
  {
  }

  /** The tables a transcript's header lines fill. */
  datatype HeaderTables = HeaderTables(header: map<HttpRequestHeader, string>,
                                       custom: map<string, string>, host: string)

  const NoTables: HeaderTables := HeaderTables(map[], map[], "")

  /** One header line applied to the tables. Adding a key a table already
      holds raises the dictionary's duplicate-key error; a known header also
      removes its key from the custom table. */
  function RouteLine(t: HeaderTables, route: Route): (r: Result<HeaderTables, Fault>)
    ensures r.Err? ==> r.error == Unhandled(DuplicateKey)
  {
    match route
    case ToHost(v) => Ok(t.(host := v))
    case Dropped => Ok(t)
    case ToHeader(k, h, v) =>
      if h in t.header then Err(Unhandled(DuplicateKey))
      else Ok(t.(header := t.header[h := v], custom := t.custom - {k}))
    case ToCustom(k, v) =>
      if k in t.custom then Err(Unhandled(DuplicateKey))
      else Ok(t.(custom := t.custom[k := v]))
  }

  /** The header lines' routes applied in order; the first error ends the walk. */
  function RouteAll(routes: seq<Route>): Result<HeaderTables, Fault>
    decreases |routes|
  {
    if routes == [] then Ok(NoTables)
    else match RouteAll(routes[..|routes| - 1])
      case Err(e) => Err(e)
      case Ok(t) => RouteLine(t, routes[|routes| - 1])
  }

  /** The header lines applied in order, as the library's loop over them does. */
  method RouteHeaderLines(lines: seq<string>) returns (r: Result<HeaderTables, Fault>)
    ensures r == RouteAll(Routes(lines))
  {
    r := ApplyRoutes(Routes(lines));
  }

  /** The loop body of RouteHeaderLines once each line's route is known: the
      tables are updated in place and the first duplicate ends the loop. */
  method ApplyRoutes(routes: seq<Route>) returns (r: Result<HeaderTables, Fault>)
    ensures r == RouteAll(routes)
  {
    var header: map<HttpRequestHeader, string> := map[];
    var custom: map<string, string> := map[];
    var host := "";
    var i := 0;
    while i < |routes|
      invariant 0 <= i <= |routes|
      invariant RouteAll(routes[..i]) == Ok(HeaderTables(header, custom, host))
    {
      assert routes[..i + 1][..i] == routes[..i];
      assert routes[..i + 1][i] == routes[i];
      match routes[i] {
        case ToHost(v) =>
          host := v;
        case Dropped =>
        case ToHeader(k, h, v) =>
          if h in header {
            ErrorIsFinal(routes, i + 1);
            return Err(Unhandled(DuplicateKey));
          }
          header := header[h := v];
          custom := custom - {k};
        case ToCustom(k, v) =>
          if k in custom {
            ErrorIsFinal(routes, i + 1);
            return Err(Unhandled(DuplicateKey));
          }
          custom := custom[k := v];
      }
      i := i + 1;
    }
    assert routes[..i] == routes;
    r := Ok(HeaderTables(header, custom, host));
  }

  /** Once a prefix of the routes fails, the whole walk fails the same way. */
  lemma {:induction false} ErrorIsFinal(routes: seq<Route>, n: nat)
    requires n <= |routes| && RouteAll(routes[..n]).Err?
    ensures RouteAll(routes) == RouteAll(routes[..n])
    decreases |routes| - n
  {
    if n < |routes| {
      assert routes[..n + 1][..n] == routes[..n];
      ErrorIsFinal(routes, n + 1);
    } else {
      assert routes[..n] == routes;
    }
  }

  /** The table slot a route writes to, if any. */
  datatype Slot = HeaderSlot(header: HttpRequestHeader) | CustomSlot(key: string)

  function SlotOf(r: Route): Option<Slot> {
    match r
    case ToHeader(_, h, _) => Some(HeaderSlot(h))
    case ToCustom(k, _) => Some(CustomSlot(k))
    case _ => None
  }

  /** Two header lines write to the same slot. */
  predicate Clash(routes: seq<Route>) {
    exists i, j :: 0 <= i < j < |routes| && SlotOf(routes[i]).Some? && SlotOf(routes[i]) == SlotOf(routes[j])
  }

  /** The value of the last Host line, or "" when there is none. */
  function LastHost(routes: seq<Route>): string
    decreases |routes|
  {
    if routes == [] then ""
    else if routes[|routes| - 1].ToHost? then routes[|routes| - 1].value
    else LastHost(routes[..|routes| - 1])
  }

  /** The known-header table holds exactly what the routes send to it. */
  predicate HeaderMatch(routes: seq<Route>, header: map<HttpRequestHeader, string>) {
    && (forall i :: 0 <= i < |routes| && routes[i].ToHeader? ==>
          routes[i].header in header && header[routes[i].header] == routes[i].value)
    && (forall h :: h in header ==>
          exists i :: 0 <= i < |routes| && routes[i].ToHeader? && routes[i].header == h
                      && routes[i].value == header[h])
  }

  /** The custom table holds exactly what the routes send to it. */
  predicate CustomMatch(routes: seq<Route>, custom: map<string, string>) {
    && (forall i :: 0 <= i < |routes| && routes[i].ToCustom? ==>
          routes[i].key in custom && custom[routes[i].key] == routes[i].value)
    && (forall k :: k in custom ==>
          exists i :: 0 <= i < |routes| && routes[i].ToCustom? && routes[i].key == k
                      && routes[i].value == custom[k])
  }

  /** The tables hold exactly what the routes send to them. */
  predicate TablesMatch(routes: seq<Route>, t: HeaderTables) {
    HeaderMatch(routes, t.header) && CustomMatch(routes, t.custom) && t.host == LastHost(routes)
  }

  /** Routing fails exactly when two lines write to the same slot, and then
      with the duplicate-key error; otherwise every known header, custom
      header and the host land where their lines send them, and nothing else
      is in the tables. */
  lemma {:induction false} RoutingSpec(routes: seq<Route>)
    requires KeysConsistent(routes)
    ensures RouteAll(routes).Err? <==> Clash(routes)
    ensures RouteAll(routes).Err? ==> RouteAll(routes).error == Unhandled(DuplicateKey)
    ensures RouteAll(routes).Ok? ==> TablesMatch(routes, RouteAll(routes).value)
    decreases |routes|
  {
    if routes == [] {
      return;
    }
    var n := |routes| - 1;
    assert KeysConsistent(routes[..n]) by {
      assert forall i :: 0 <= i < n ==> routes[..n][i] == routes[i];
    }
    RoutingSpec(routes[..n]);
    ClashStep(routes);
    if RouteAll(routes[..n]).Ok? {
      RoutingStep(routes, RouteAll(routes[..n]).value);
    }
  }

  /** One more route applied to tables that match the earlier routes. */
  lemma RoutingStep(routes: seq<Route>, t: HeaderTables)
    requires routes != [] && KeysConsistent(routes)
    requires TablesMatch(routes[..|routes| - 1], t)
    ensures var r := RouteLine(t, routes[|routes| - 1]);
            && (r.Err? <==> SlotOf(routes[|routes| - 1]).Some?
                            && exists i :: 0 <= i < |routes| - 1
                                           && SlotOf(routes[i]) == SlotOf(routes[|routes| - 1]))
            && (r.Ok? ==> TablesMatch(routes, r.value))
  {
    var n := |routes| - 1;
    match routes[n]
    case ToHost(v) =>
      TablesExtend(routes, t, t.(host := v));
    case Dropped =>
      TablesExtend(routes, t, t);
    case ToHeader(k, h, v) =>
      RoutingStepHeader(routes, t);
    case ToCustom(k, v) =>
      RoutingStepCustom(routes, t);
  }

  lemma RoutingStepHeader(routes: seq<Route>, t: HeaderTables)
    requires routes != [] && KeysConsistent(routes) && routes[|routes| - 1].ToHeader?
    requires TablesMatch(routes[..|routes| - 1], t)
    ensures var r := RouteLine(t, routes[|routes| - 1]);
            && (r.Err? <==> exists i :: 0 <= i < |routes| - 1 && SlotOf(routes[i]) == SlotOf(routes[|routes| - 1]))
            && (r.Ok? ==> TablesMatch(routes, r.value))
  {
    var n := |routes| - 1;
    var init := routes[..n];
    var k, h, v := routes[n].key, routes[n].header, routes[n].value;
    if h !in t.header {
      assert k !in t.custom by {
        forall i | 0 <= i < n && init[i].ToCustom? ensures init[i].key != k {
          assert routes[i] == init[i];
        }
      }
      assert t.custom - {k} == t.custom;
      TablesExtend(routes, t, t.(header := t.header[h := v]));
      forall i | 0 <= i < n ensures SlotOf(routes[i]) != SlotOf(routes[n]) {
        assert routes[i] == init[i];
      }
    } else {
      var i :| 0 <= i < n && init[i].ToHeader? && init[i].header == h && init[i].value == t.header[h];
      assert routes[i] == init[i];
      assert SlotOf(routes[i]) == SlotOf(routes[n]);
    }
  }

  lemma RoutingStepCustom(routes: seq<Route>, t: HeaderTables)
    requires routes != [] && routes[|routes| - 1].ToCustom?
    requires TablesMatch(routes[..|routes| - 1], t)
    ensures var r := RouteLine(t, routes[|routes| - 1]);
            && (r.Err? <==> exists i :: 0 <= i < |routes| - 1 && SlotOf(routes[i]) == SlotOf(routes[|routes| - 1]))
            && (r.Ok? ==> TablesMatch(routes, r.value))
  {
    var n := |routes| - 1;
    var init := routes[..n];
    var k, v := routes[n].key, routes[n].value;
    if k !in t.custom {
      TablesExtend(routes, t, t.(custom := t.custom[k := v]));
      forall i | 0 <= i < n ensures SlotOf(routes[i]) != SlotOf(routes[n]) {
        assert routes[i] == init[i];
      }
    } else {
      var i :| 0 <= i < n && init[i].ToCustom? && init[i].key == k && init[i].value == t.custom[k];
      assert routes[i] == init[i];
      assert SlotOf(routes[i]) == SlotOf(routes[n]);
    }
  }

  /** Clash of a walk with one more route: a clash among the earlier routes,
      or the new route writing a slot an earlier route wrote. */
  lemma ClashStep(routes: seq<Route>)
    requires routes != []
    ensures var n := |routes| - 1;
            Clash(routes) <==>
              Clash(routes[..n])
              || (SlotOf(routes[n]).Some? && exists i :: 0 <= i < n && SlotOf(routes[i]) == SlotOf(routes[n]))
  {
    var n := |routes| - 1;
    var init := routes[..n];
    assert forall i :: 0 <= i < n ==> init[i] == routes[i];
  }

  /** The tables after one more route, when it adds to them without a clash,
      match the longer walk. */
  lemma TablesExtend(routes: seq<Route>, t: HeaderTables, t': HeaderTables)
    requires routes != []
    requires TablesMatch(routes[..|routes| - 1], t)
    requires match routes[|routes| - 1]
             case ToHost(v) => t' == t.(host := v)
             case Dropped => t' == t
             case ToHeader(_, h, v) => h !in t.header && t' == t.(header := t.header[h := v])
             case ToCustom(k, v) => k !in t.custom && t' == t.(custom := t.custom[k := v])
    ensures TablesMatch(routes, t')
  {
    HeaderExtend(routes, t.header, t'.header);
    CustomExtend(routes, t.custom, t'.custom);
  }

  lemma HeaderExtend(routes: seq<Route>, header: map<HttpRequestHeader, string>,
                     header': map<HttpRequestHeader, string>)
    requires routes != []
    requires HeaderMatch(routes[..|routes| - 1], header)
    requires var last := routes[|routes| - 1];
             if last.ToHeader? then last.header !in header && header' == header[last.header := last.value]
             else header' == header
    ensures HeaderMatch(routes, header')
  {
    var n := |routes| - 1;
    var init := routes[..n];
    var last := routes[n];
    forall i | 0 <= i < |routes| && routes[i].ToHeader?
      ensures routes[i].header in header' && header'[routes[i].header] == routes[i].value
    {
      if i < n {
        assert routes[i] == init[i];
      }
    }
    forall h | h in header'
      ensures exists i :: 0 <= i < |routes| && routes[i].ToHeader? && routes[i].header == h
                          && routes[i].value == header'[h]
    {
      if last.ToHeader? && last.header == h {
        assert routes[n].header == h;
      } else {
        var i :| 0 <= i < n && init[i].ToHeader? && init[i].header == h && init[i].value == header[h];
        assert routes[i] == init[i];
      }
    }
  }

  lemma CustomExtend(routes: seq<Route>, custom: map<string, string>, custom': map<string, string>)
    requires routes != []
    requires CustomMatch(routes[..|routes| - 1], custom)
    requires var last := routes[|routes| - 1];
             if last.ToCustom? then last.key !in custom && custom' == custom[last.key := last.value]
             else custom' == custom
    ensures CustomMatch(routes, custom')
  {
    var n := |routes| - 1;
    var init := routes[..n];
    var last := routes[n];
    forall i | 0 <= i < |routes| && routes[i].ToCustom?
      ensures routes[i].key in custom' && custom'[routes[i].key] == routes[i].value
    {
      if i < n {
        assert routes[i] == init[i];
      }
    }
    forall k | k in custom'
      ensures exists i :: 0 <= i < |routes| && routes[i].ToCustom? && routes[i].key == k
                          && routes[i].value == custom'[k]
    {
      if last.ToCustom? && last.key == k {
        assert routes[n].key == k;
      } else {
        var i :| 0 <= i < n && init[i].ToCustom? && init[i].key == k && init[i].value == custom[k];
        assert routes[i] == init[i];
      }
    }
  }

  /** Every key the custom table ends up with is one that routes there, so the
      removal a known header performs never finds anything to remove. */
  lemma CustomKeysAreCustom(lines: seq<string>)
    requires RouteAll(Routes(lines)).Ok?
    ensures forall k :: k in RouteAll(Routes(lines)).value.custom ==>
              Classify(k, RouteAll(Routes(lines)).value.custom[k])
              == ToCustom(k, RouteAll(Routes(lines)).value.custom[k])
  {
    RoutesConsistent(lines);
    RoutingSpec(Routes(lines));
  }

  /** A transcript's request and header, before the host is checked. */
  datatype Head = Head(verb: string, target: string, tables: HeaderTables, body: Option<string>)

  /** The transcript parsed up to the host check, failing at the first of:
      no line, a request line of fewer than three words, two header lines
      writing the same slot. On success the method and target are the request
      line's first two words and the tables hold exactly what the header lines
      send to them. */
  function ParseHead(data: string): (r: Result<Head, Fault>)
    ensures r.Err? ==> r.error == Reported(UrlParseError) || r.error == Unhandled(DuplicateKey)
    ensures r.Ok? <==> SplitSectionsFixed(data).Ok?
                       && |Words(SplitSectionsFixed(data).value.requestLine)| >= 3
                       && !Clash(Routes(SplitSectionsFixed(data).value.headerLines))
    ensures r.Ok? ==> var sections := SplitSectionsFixed(data).value;
                      var words := Words(sections.requestLine);
                      && r.value.verb == words[0] && r.value.target == words[1]
                      && TablesMatch(Routes(sections.headerLines), r.value.tables)
                      && r.value.body == sections.body
    ensures r.Ok? ==> ' ' !in r.value.verb && ' ' !in r.value.target
    ensures r.Ok? ==> r.value.body.Some? ==> r.value.body.value != ""
  {
    match SplitSectionsFixed(data)
    case Err(e) => Err(e)
    case Ok(sections) =>
      match ParseRequestLine(sections.requestLine)
      case Err(e) => Err(e)
      case Ok(line) =>
        var routed := RouteAll(Routes(sections.headerLines));
        RoutesConsistent(sections.headerLines);
        RoutingSpec(Routes(sections.headerLines));
        if routed.Err? then Err(routed.error)
        else Ok(Head(line.verb, line.target, routed.value, sections.body))
  }

  /** The URL a transcript's request goes to. */
  function TargetUrl(host: string, target: string): (r: string)
    ensures StartsWith(r, "http://") && EndsWith(r, target)
  {
    "http://" + host + target
  }

  /** A parsed transcript: the request's method and URL, the two header
      tables (with the Content-Type the body conversion chose) and the
      converted body, if the request carries one. */
  datatype Parsed = Parsed(verb: string, url: string, header: map<HttpRequestHeader, string>,
                           custom: map<string, string>, body: Option<TranscriptBody>)

  /** The Content-Type header, if the table has one. */
  function ContentTypeOf(header: map<HttpRequestHeader, string>): Option<string> {
    if ContentType in header then Some(header[ContentType]) else None
  }

  /** The header table with the Content-Type a body conversion chose, when it
      chose one. */
  function WithContentType(header: map<HttpRequestHeader, string>, contentType: Option<string>)
    : (r: map<HttpRequestHeader, string>)
    ensures r - {ContentType} == header - {ContentType}
    ensures contentType.Some? ==> ContentTypeOf(r) == contentType
    ensures contentType.None? ==> r == header
  {
    if contentType.Some? then header[ContentType := contentType.value] else header
  }

  /** The whole transcript: the head, then the host check, the URL and the
      body conversion. */
  function ParseTranscript(data: string, postType: PostType, encoding: string): (r: Result<Parsed, Fault>)
    ensures r.Err? ==> r.error == Reported(UrlParseError) || r.error == Unhandled(DuplicateKey)
    ensures r.Ok? ==> StartsWith(r.value.url, "http://") && ' ' !in r.value.verb
    ensures r.Ok? ==> (r.value.body.Some? ==> ToUpper(r.value.verb) != "GET")
    ensures r.Ok? && r.value.body.Some? ==> ContentTypeOf(r.value.header) == r.value.body.value.contentType
    ensures var split := SplitSectionsFixed(data);
            r.Ok? <==> && split.Ok?
                       && |Words(split.value.requestLine)| >= 3
                       && !Clash(Routes(split.value.headerLines))
                       && LastHost(Routes(split.value.headerLines)) != ""
    ensures r.Ok? ==> var sections := SplitSectionsFixed(data).value;
                      var words := Words(sections.requestLine);
                      var routes := Routes(sections.headerLines);
                      && r.value.verb == words[0]
                      && r.value.url == "http://" + LastHost(routes) + words[1]
                      && CustomMatch(routes, r.value.custom)
                      && (r.value.body.None? ==> HeaderMatch(routes, r.value.header))
                      && (r.value.body.Some? <==> ToUpper(words[0]) != "GET" && sections.body.Some?)
  {
    match ParseHead(data)
    case Err(e) => Err(e)
    case Ok(head) => Complete(head, postType, encoding)
  }

  /** A parsed head completed: rejected when no Host line gave a host;
      otherwise the URL is "http://" + host + the request target, and for a
      method other than GET with text after the blank line the body is
      converted under the caller's variant and encoding, the Content-Type it
      chooses replacing the table's. */
  function Complete(head: Head, postType: PostType, encoding: string): (r: Result<Parsed, Fault>)
    ensures r.Err? <==> head.tables.host == ""
    ensures r.Err? ==> r.error == Reported(UrlParseError)
    ensures r.Ok? ==>
              && r.value.verb == head.verb
              && r.value.url == "http://" + head.tables.host + head.target
              && r.value.custom == head.tables.custom
              && r.value.header - {ContentType} == head.tables.header - {ContentType}
              && (r.value.body.Some? <==> ToUpper(head.verb) != "GET" && head.body.Some?)
              && (r.value.body.None? ==> r.value.header == head.tables.header)
              && (r.value.body.Some? ==>
                    r.value.body.value
                    == ConvertTranscriptBody(ContentTypeOf(head.tables.header), postType, encoding,
                                             head.body.value)
                    && ContentTypeOf(r.value.header) == r.value.body.value.contentType)
  {
    if head.tables.host == "" then Err(Reported(UrlParseError))
    else
      var url := TargetUrl(head.tables.host, head.target);
      if ToUpper(head.verb) != "GET" && head.body.Some? then
        var header := head.tables.header;
        var converted := ConvertTranscriptBody(ContentTypeOf(header), postType, encoding, head.body.value);
        var header' := WithContentType(header, converted.contentType);
        Ok(Parsed(head.verb, url, header', head.tables.custom, Some(converted)))
      else Ok(Parsed(head.verb, url, head.tables.header, head.tables.custom, None))
  }

  /** The host the URL is built from is the value of the transcript's last
      Host line, and a transcript without one is rejected. */
  lemma HostFromLastHostLine(data: string, postType: PostType, encoding: string)
    requires SplitSectionsFixed(data).Ok?
    ensures var lines := SplitSectionsFixed(data).value.headerLines;
            ParseHead(data).Ok? ==> ParseHead(data).value.tables.host == LastHost(Routes(lines))
    ensures var lines := SplitSectionsFixed(data).value.headerLines;
            ParseHead(data).Ok? && LastHost(Routes(lines)) == ""
            ==> ParseTranscript(data, postType, encoding) == Err(Reported(UrlParseError))
  {
    var lines := SplitSectionsFixed(data).value.headerLines;
    RoutesConsistent(lines);
    RoutingSpec(Routes(lines));
  }
  /** A word holds no white space character. */
  lemma WordAvoids(s: string, c: char)
    requires IsWord(s) && IsWhiteSpace(c)
    ensures c !in s
  {
    forall k | 0 <= k < |s| ensures s[k] != c { assert !IsWhiteSpace(s[k]); }
  }

  /** A transcript made of a request line and one Host line, with or without
      a body, parses to that method and to the URL built from the host and the
      target; its body is converted exactly when the method is not GET. */
  lemma TranscriptRoundTrip(verb: string, target: string, protocol: string, host: string, body: Option<string>,
                            postType: PostType, encoding: string)
    requires IsWord(verb) && IsWord(target) && IsWord(protocol) && IsWord(host)
    requires body.Some? ==> body.value != "" && !StartsWith(body.value, HeadSeparator)
    ensures var head := verb + " " + target + " " + protocol + "\nHost: " + host;
            var data := if body.Some? then head + HeadSeparator + body.value else head;
            var r := ParseTranscript(data, postType, encoding);
            && r.Ok? && r.value.verb == verb && r.value.url == "http://" + host + target
            && (r.value.body.Some? <==> ToUpper(verb) != "GET" && body.Some?)
  {
    var line := verb + " " + target + " " + protocol;
    var head := line + "\nHost: " + host;
    var data := if body.Some? then head + HeadSeparator + body.value else head;
    RoundTripSections(verb, target, protocol, host, body);
    var split := SplitSectionsFixed(data);
    assert split == Ok(Sections(line, ["Host: " + host], body));
    RequestLineWords(verb, target, protocol);
    HostRoutes(host);
    var r := ParseTranscript(data, postType, encoding);
    assert r.Ok?;
    assert r.value.url == "http://" + host + target;
  }

  lemma RequestLineWords(verb: string, target: string, protocol: string)
    requires IsWord(verb) && IsWord(target) && IsWord(protocol)
    ensures Words(verb + " " + target + " " + protocol) == [verb, target, protocol]
  {
    var line := verb + " " + target + " " + protocol;
    TrimIdentity(line);
    SpacedWordsUnchanged(verb, target, protocol);
    SpacedWordsSplit(verb, target, protocol);
  }

  lemma RoundTripSections(verb: string, target: string, protocol: string, host: string, body: Option<string>)
    requires IsWord(verb) && IsWord(target) && IsWord(protocol) && IsWord(host)
    requires body.Some? ==> body.value != "" && !StartsWith(body.value, HeadSeparator)
    ensures var head := verb + " " + target + " " + protocol + "\nHost: " + host;
            var data := if body.Some? then head + HeadSeparator + body.value else head;
            SplitSectionsFixed(data) == Ok(Sections(verb + " " + target + " " + protocol, ["Host: " + host], body))
  {
    var requestLine := verb + " " + target + " " + protocol;
    var hostLine := "Host: " + host;
    TwoLineHead(verb, target, protocol, host);
    PlainRequestLine(verb, target, protocol);
    PlainHostLine(host);
    SplitSectionsRoundTrip([requestLine, hostLine], body);
  }

  lemma HostRoutes(host: string)
    requires IsWord(host)
    ensures Routes(["Host: " + host]) == [ToHost(host)]
    ensures !Clash([ToHost(host)]) && LastHost([ToHost(host)]) == host
  {
    var lines := ["Host: " + host];
    HostLineRoute(host);
    assert Routes(lines)[0] == RouteOf(lines[0]);
    OnlyHost(host);
  }

  lemma OnlyHost(host: string)
    ensures !Clash([ToHost(host)]) && LastHost([ToHost(host)]) == host
  {
    assert [ToHost(host)][|[ToHost(host)]| - 1] == ToHost(host);
  }

  lemma TwoLineHead(verb: string, target: string, protocol: string, host: string)
    ensures Join("\n", [verb + " " + target + " " + protocol, "Host: " + host])
            == verb + " " + target + " " + protocol + "\nHost: " + host
  {
    var a := verb + " " + target + " " + protocol;
    assert [a, "Host: " + host][1..] == ["Host: " + host];
    assert "\n" + ("Host: " + host) == "\nHost: " + host;
  }

  lemma PlainRequestLine(verb: string, target: string, protocol: string)
    requires IsWord(verb) && IsWord(target) && IsWord(protocol)
    ensures IsPlainLine(verb + " " + target + " " + protocol)
  {
    assert IsWhiteSpace('\n') && IsWhiteSpace('\r');
    WordAvoids(verb, '\n');
    WordAvoids(verb, '\r');
    WordAvoids(target, '\n');
    WordAvoids(target, '\r');
    WordAvoids(protocol, '\n');
    WordAvoids(protocol, '\r');
  }

  lemma PlainHostLine(host: string)
    requires IsWord(host)
    ensures IsPlainLine("Host: " + host)
  {
    assert IsWhiteSpace('\n') && IsWhiteSpace('\r');
    WordAvoids(host, '\n');
    WordAvoids(host, '\r');
  }

  /** "Host: h" routes to the host. */
  lemma HostLineRoute(host: string)
    requires IsWord(host)
    ensures RouteOf("Host: " + host) == ToHost(host)
  {
    HostLineSplit(host);
    HostKey(host);
  }

  lemma HostLineSplit(host: string)
    requires IsWord(host)
    ensures SplitHeaderLine("Host: " + host) == ("Host", host)
  {
    HostKeyShape();
    HeaderLineRoundTrip("Host", host);
    HostLineText(host);
  }

  lemma HostKeyShape()
    ensures "Host" != [] && ':' !in "Host" && !IsWhiteSpace("Host"[0]) && !IsWhiteSpace("Host"[|"Host"| - 1])
  {
  }

  lemma HostLineText(host: string)
    ensures "Host" + ": " + host == "Host: " + host
  {
  }

  lemma HostKey(value: string)
    ensures Classify("Host", value) == ToHost(value)
  {
    var lower := ToLower("Host");
    assert |lower| == 4;
    assert lower[0] == 'h' && lower[1] == 'o' && lower[2] == 's' && lower[3] == 't';
    assert lower == "host";
  }
}
