/** The .NET string operations the library relies on, over `seq<char>`. */
module Text {
  import opened Common

  /** char.IsWhiteSpace: U+0009..U+000D, U+0020, U+0085, U+00A0 and the Unicode
      space, line and paragraph separators. */
  predicate IsWhiteSpace(c: char) {
    ('\t' <= c <= '\r') || c == ' ' || c == '\U{85}' || c == '\U{A0}' || c == '\U{1680}'
    || ('\U{2000}' <= c <= '\U{200A}') || c == '\U{2028}' || c == '\U{2029}'
    || c == '\U{202F}' || c == '\U{205F}' || c == '\U{3000}'
  }

  /** String.TrimStart(): drops leading white space. */
  function TrimStart(s: string): (r: string)
    ensures |r| <= |s|
    ensures r == [] || !IsWhiteSpace(r[0])
    ensures forall k :: 0 <= k < |s| - |r| ==> IsWhiteSpace(s[k])
  {
    if |s| > 0 && IsWhiteSpace(s[0]) then TrimStart(s[1..]) else s
  }

  /** String.TrimEnd(): drops trailing white space. */
  function TrimEnd(s: string): (r: string)
    ensures |r| <= |s| && r == s[..|r|]
    ensures r == [] || !IsWhiteSpace(r[|r| - 1])
    ensures forall k :: |r| <= k < |s| ==> IsWhiteSpace(s[k])
  {
    if |s| > 0 && IsWhiteSpace(s[|s| - 1]) then TrimEnd(s[..|s| - 1]) else s
  }

  /** String.Trim(): drops white space at both ends. */
  function Trim(s: string): (r: string)
    ensures r == [] || (!IsWhiteSpace(r[0]) && !IsWhiteSpace(r[|r| - 1]))
    ensures forall c :: c in r ==> c in s
  {
    var start := TrimStart(s);
    TrimStartSuffix(s);
    SliceChars(s, |s| - |start|, |s|);
    var r := TrimEnd(start);
    SliceChars(start, 0, |r|);
    r
  }

  /** What TrimStart leaves is a suffix of the text. */
  lemma {:induction false} TrimStartSuffix(s: string)
    ensures var r := TrimStart(s); r == s[|s| - |r|..]
  {
    if |s| > 0 && IsWhiteSpace(s[0]) {
      TrimStartSuffix(s[1..]);
      var r := TrimStart(s);
      assert s[1..][|s| - 1 - |r|..] == s[|s| - |r|..];
    }
  }

  /** Every character of a slice is a character of the whole. */
  lemma SliceChars(s: string, i: nat, j: nat)
    requires i <= j <= |s|
    ensures forall c :: c in s[i..j] ==> c in s
  {
    forall c | c in s[i..j] ensures c in s {
      var k :| 0 <= k < j - i && s[i..j][k] == c;
      assert s[i + k] == c;
    }
  }

  /** A text with no white space at either end is its own trim. */
  lemma TrimIdentity(s: string)
    requires s == [] || (!IsWhiteSpace(s[0]) && !IsWhiteSpace(s[|s| - 1]))
    ensures TrimStart(s) == s && TrimEnd(s) == s && Trim(s) == s
  {
  }

  /** String.TrimEnd(c): drops trailing copies of c. */
  function TrimEndChar(s: string, c: char): (r: string)
    ensures |r| <= |s| && r == s[..|r|]
    ensures r == [] || r[|r| - 1] != c
  {
    if |s| > 0 && s[|s| - 1] == c then TrimEndChar(s[..|s| - 1], c) else s
  }

  function LowerChar(c: char): char {
    if 'A' <= c <= 'Z' then (c as int + 32) as char else c
  }

  function UpperChar(c: char): char {
    if 'a' <= c <= 'z' then (c as int - 32) as char else c
  }

  /** String.ToLower() on the ASCII letters. */
  function ToLower(s: string): string {
    seq(|s|, i requires 0 <= i < |s| => LowerChar(s[i]))
  }

  /** String.ToUpper() on the ASCII letters. */
  function ToUpper(s: string): string {
    seq(|s|, i requires 0 <= i < |s| => UpperChar(s[i]))
  }

  predicate StartsWith(s: string, t: string) {
    |t| <= |s| && s[..|t|] == t
  }

  predicate EndsWith(s: string, t: string) {
    |t| <= |s| && s[|s| - |t|..] == t
  }

  /** t occurs in s at position k. */
  predicate OccursAt(s: string, t: string, k: int) {
    0 <= k && k + |t| <= |s| && s[k..k + |t|] == t
  }

  /** The first occurrence of t in s at or after from (String.IndexOf). */
  function IndexOfFrom(s: string, t: string, from: nat): (r: Option<nat>)
    ensures r.Some? ==> from <= r.value && OccursAt(s, t, r.value)
    ensures r.Some? ==> forall k :: from <= k < r.value ==> !OccursAt(s, t, k)
    ensures r.None? ==> forall k :: from <= k ==> !OccursAt(s, t, k)
    decreases |s| - from
  {
    if from + |t| > |s| then None
    else if s[from..from + |t|] == t then Some(from)
    else IndexOfFrom(s, t, from + 1)
  }

  function IndexOf(s: string, t: string): (r: Option<nat>)
    ensures r.Some? ==> OccursAt(s, t, r.value) && forall k :: 0 <= k < r.value ==> !OccursAt(s, t, k)
    ensures r.None? ==> forall k :: !OccursAt(s, t, k)
  {
    IndexOfFrom(s, t, 0)
  }

  /** String.Contains (ordinal). */
  predicate Contains(s: string, t: string) {
    IndexOf(s, t).Some?
  }

  /** String.Split(c) without options: every piece between occurrences of c. */
  function SplitChar(s: string, c: char): (r: seq<string>)
    ensures |r| >= 1
    ensures forall k :: 0 <= k < |r| ==> c !in r[k]
    ensures Join([c], r) == s
    decreases |s|
  {
    match IndexOf(s, [c])
    case None =>
      CharIndexNone(s, c);
      [s]
    case Some(i) =>
      CharIndexSome(s, c, i);
      [s[..i]] + SplitChar(s[i + 1..], c)
  }

  lemma CharIndexNone(s: string, c: char)
    requires IndexOf(s, [c]).None?
    ensures c !in s
  {
    forall k | 0 <= k < |s| ensures s[k] != c { assert !OccursAt(s, [c], k); }
  }

  lemma CharIndexSome(s: string, c: char, i: nat)
    requires IndexOf(s, [c]) == Some(i)
    ensures i < |s| && s == s[..i] + [c] + s[i + 1..] && c !in s[..i]
  {
    assert s[i..i + 1] == [c];
    forall k | 0 <= k < i ensures s[k] != c { assert !OccursAt(s, [c], k); }
    assert s == s[..i] + [c] + s[i + 1..];
  }

  /** String.Split(c, StringSplitOptions.RemoveEmptyEntries). */
  function SplitNonEmpty(s: string, c: char): (r: seq<string>)
    ensures forall k :: 0 <= k < |r| ==> r[k] != [] && c !in r[k]
  {
    var pieces := SplitChar(s, c);
    var r := NonEmpty(pieces);
    assert forall k :: 0 <= k < |r| ==> r[k] in pieces;
    r
  }

  function NonEmpty(xs: seq<string>): (r: seq<string>)
    ensures forall k :: 0 <= k < |r| ==> r[k] != ""
    ensures forall x :: x in r <==> x in xs && x != ""
  {
    if xs == [] then []
    else if xs[0] == "" then NonEmpty(xs[1..])
    else [xs[0]] + NonEmpty(xs[1..])
  }

  /** String.Join(sep, xs). */
  function Join(sep: string, xs: seq<string>): string {
    if xs == [] then ""
    else if |xs| == 1 then xs[0]
    else xs[0] + sep + Join(sep, xs[1..])
  }

  /** Splitting a join on a separator that no element contains gives the
      elements back. */
  lemma {:induction false} SplitJoin(xs: seq<string>, c: char)
    requires xs != []
    requires forall k :: 0 <= k < |xs| ==> c !in xs[k]
    ensures SplitChar(Join([c], xs), c) == xs
  {
    if |xs| == 1 {
      NoOccurrence(xs[0], c);
    } else {
      var s := Join([c], xs);
      var tail := Join([c], xs[1..]);
      assert s == xs[0] + [c] + tail;
      NoOccurrence(xs[0], c);
      FirstOccurrence(xs[0], c, tail);
      assert s[|xs[0]| + 1..] == tail;
      assert s[..|xs[0]|] == xs[0];
      SplitJoin(xs[1..], c);
    }
  }

  lemma NoOccurrence(s: string, c: char)
    requires c !in s
    ensures IndexOf(s, [c]).None?
    ensures SplitChar(s, c) == [s]
  {
    forall k | 0 <= k && k + 1 <= |s| ensures !OccursAt(s, [c], k) {
      assert s[k..k + 1][0] == s[k];
    }
  }

  lemma FirstOccurrence(a: string, c: char, b: string)
    requires c !in a
    ensures IndexOf(a + [c] + b, [c]) == Some(|a|)
  {
    var s := a + [c] + b;
    assert OccursAt(s, [c], |a|) by { assert s[|a|..|a| + 1] == [c]; }
    forall k | 0 <= k < |a| ensures !OccursAt(s, [c], k) {
      assert s[k..k + 1][0] == a[k];
    }
  }

  /** String.Replace(t, "") for a one-character t. */
  function RemoveChar(s: string, c: char): (r: string)
    ensures c !in r
  {
    if s == [] then []
    else if s[0] == c then RemoveChar(s[1..], c)
    else [s[0]] + RemoveChar(s[1..], c)
  }

  /** String.Replace("  ", ""): deletes each pair of spaces, left to right. */
  function RemoveDoubleSpaces(s: string): string {
    if |s| >= 2 && s[0] == ' ' && s[1] == ' ' then RemoveDoubleSpaces(s[2..])
    else if s == [] then []
    else [s[0]] + RemoveDoubleSpaces(s[1..])
  }

  /** s with every leading copy of sep removed. */
  function DropLeading(s: string, sep: string): (r: string)
    requires sep != []
    ensures |r| <= |s|
    ensures !StartsWith(r, sep)
    decreases |s|
  {
    if StartsWith(s, sep) then DropLeading(s[|sep|..], sep) else s
  }

  /** What DropLeading leaves is a suffix of the text. */
  lemma {:induction false} DropLeadingSuffix(s: string, sep: string)
    requires sep != []
    ensures var r := DropLeading(s, sep); r == s[|s| - |r|..]
    decreases |s|
  {
    if StartsWith(s, sep) {
      DropLeadingSuffix(s[|sep|..], sep);
      var r := DropLeading(s, sep);
      assert s[|sep|..][|s| - |sep| - |r|..] == s[|s| - |r|..];
    }
  }

  /** The text before the first occurrence of t does not contain t. */
  lemma NothingBeforeFirst(s: string, t: string, k: nat)
    requires t != [] && IndexOf(s, t) == Some(k)
    ensures !Contains(s[..k], t)
    ensures !StartsWith(s, t) ==> k > 0
  {
    forall j | 0 <= j ensures !OccursAt(s[..k], t, j) {
      if j + |t| <= k {
        assert s[..k][j..j + |t|] == s[j..j + |t|];
        assert !OccursAt(s, t, j);
      }
    }
  }

  /** String.Split(new[] {sep}, 2, StringSplitOptions.RemoveEmptyEntries):
      at most two non-empty parts; the second part is the remainder after the
      first separator and any further separators that follow it at once. */
  function SplitTwoNonEmpty(s: string, sep: string): (r: seq<string>)
    requires sep != []
    ensures |r| <= 2
    ensures forall k :: 0 <= k < |r| ==> r[k] != ""
    ensures r == [] <==> DropLeading(s, sep) == ""
    ensures |r| >= 1 ==> !Contains(r[0], sep)
  {
    var s1 := DropLeading(s, sep);
    if s1 == "" then []
    else match IndexOf(s1, sep)
      case None => [s1]
      case Some(k) =>
        FirstOccurrenceBounds(s1, sep, k);
        var rest := DropLeading(s1[k + |sep|..], sep);
        if rest == "" then [s1[..k]] else [s1[..k], rest]
  }

  /** The first occurrence of sep in a text that does not start with it
      leaves a non-empty text before it that holds no sep. */
  lemma FirstOccurrenceBounds(s: string, sep: string, k: nat)
    requires sep != [] && !StartsWith(s, sep) && IndexOf(s, sep) == Some(k)
    ensures 0 < k && k + |sep| <= |s| && s[..k] != "" && !Contains(s[..k], sep)
  {
    NothingBeforeFirst(s, sep, k);
  }

  /** A text that begins with a character other than sep's first holds sep
      first where it is written out, at the end of head. */
  lemma SplitTwoAt(head: string, sep: string, body: string)
    requires sep != [] && head != [] && sep[0] !in head
    requires body != [] && !StartsWith(body, sep)
    ensures SplitTwoNonEmpty(head + sep + body, sep) == [head, body]
  {
    var s := head + sep + body;
    assert s[0] == head[0];
    assert DropLeading(s, sep) == s;
    assert OccursAt(s, sep, |head|) by { assert s[|head|..|head| + |sep|] == sep; }
    forall j | 0 <= j < |head| ensures !OccursAt(s, sep, j) {
      assert s[j] == head[j];
      if j + |sep| <= |s| {
        assert s[j..j + |sep|][0] == s[j];
      }
    }
    assert IndexOf(s, sep) == Some(|head|);
    assert s[..|head|] == head;
    assert s[|head| + |sep|..] == body;
  }

  /** A text without sep's first character is one part. */
  lemma SplitTwoWhole(head: string, sep: string)
    requires sep != [] && head != [] && sep[0] !in head
    ensures SplitTwoNonEmpty(head, sep) == [head]
  {
    assert !StartsWith(head, sep) by {
      if |sep| <= |head| {
        assert head[..|sep|][0] == head[0];
      }
    }
    forall j | 0 <= j ensures !OccursAt(head, sep, j) {
      if j + |sep| <= |head| {
        assert head[j..j + |sep|][0] == head[j];
      }
    }
  }

  /** Without empty texts, NonEmpty keeps the list. */
  lemma {:induction false} NonEmptyKeeps(xs: seq<string>)
    requires forall k :: 0 <= k < |xs| ==> xs[k] != ""
    ensures NonEmpty(xs) == xs
  {
    if xs != [] {
      NonEmptyKeeps(xs[1..]);
    }
  }

  /** A character in neither the separator nor any element is not in the join. */
  lemma {:induction false} JoinAvoids(sep: string, xs: seq<string>, c: char)
    requires c !in sep && forall k :: 0 <= k < |xs| ==> c !in xs[k]
    ensures c !in Join(sep, xs)
  {
    if |xs| > 1 {
      JoinAvoids(sep, xs[1..], c);
    }
  }

  /** String.Split(new[] {sep}, StringSplitOptions.None)[1]: the text after the
      first occurrence of sep, up to the next one. */
  function PieceAfterFirst(s: string, sep: string): (r: string)
    requires sep != [] && Contains(s, sep)
    ensures !Contains(r, sep)
  {
    var i := IndexOf(s, sep).value;
    var rest := s[i + |sep|..];
    match IndexOf(rest, sep)
    case None => rest
    case Some(j) =>
      NothingBeforeFirst(rest, sep, j);
      rest[..j]
  }
}
