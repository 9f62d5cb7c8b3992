/** HttpUtility.UrlEncode (UTF-8 bytes, then percent-encoding) and the
    form-encoded parameter string built from the request's Params dictionary. */
module UrlEncoding {
  import opened Common
  import opened Text

  /** A Unicode scalar value: what a Dafny char holds. */
  predicate IsScalar(cp: int) {
    (0 <= cp < 0xD800) || (0xE000 <= cp < 0x11_0000)
  }

  /** The UTF-8 bytes of one character. */
  function Utf8Char(c: char): (r: seq<byte>)
    ensures 1 <= |r| <= 4
  {
    var cp := c as int;
    if cp < 0x80 then [cp as byte]
    else if cp < 0x800 then [(0xC0 + cp / 64) as byte, (0x80 + cp % 64) as byte]
    else if cp < 0x1_0000 then
      [(0xE0 + cp / 4096) as byte, (0x80 + (cp / 64) % 64) as byte, (0x80 + cp % 64) as byte]
    else
      [(0xF0 + cp / 262144) as byte, (0x80 + (cp / 4096) % 64) as byte,
       (0x80 + (cp / 64) % 64) as byte, (0x80 + cp % 64) as byte]
  }

  /** Encoding.UTF8.GetBytes. */
  function Utf8(s: string): seq<byte> {
    if s == "" then [] else Utf8Char(s[0]) + Utf8(s[1..])
  }

  predicate IsContinuation(b: byte) {
    0x80 <= b < 0xC0
  }

  /** Reads one character from the front of a UTF-8 byte sequence and says how
      many bytes it took. */
  function DecodeChar(b: seq<byte>): (r: Option<(char, nat)>)
    requires b != []
    ensures r.Some? ==> 1 <= r.value.1 <= |b|
  {
    var b0 := b[0] as int;
    if b0 < 0x80 then Some((b0 as char, 1))
    else if 0xC0 <= b0 < 0xE0 && |b| >= 2 && IsContinuation(b[1]) then
      Some((((b0 - 0xC0) * 64 + (b[1] as int - 0x80)) as char, 2))
    else if 0xE0 <= b0 < 0xF0 && |b| >= 3 && IsContinuation(b[1]) && IsContinuation(b[2]) then
      var cp := ((b0 - 0xE0) * 64 + (b[1] as int - 0x80)) * 64 + (b[2] as int - 0x80);
      if IsScalar(cp) then Some((cp as char, 3)) else None
    else if 0xF0 <= b0 < 0xF8 && |b| >= 4 && IsContinuation(b[1]) && IsContinuation(b[2])
            && IsContinuation(b[3]) then
      var cp := (((b0 - 0xF0) * 64 + (b[1] as int - 0x80)) * 64 + (b[2] as int - 0x80)) * 64
                + (b[3] as int - 0x80);
      if IsScalar(cp) then Some((cp as char, 4)) else None
    else None
  }

  /** Encoding.UTF8.GetString on well-formed input; None on malformed input. */
  function DecodeUtf8(b: seq<byte>): Option<string>
    decreases |b|
  {
    if b == [] then Some("")
    else match DecodeChar(b)
      case None => None
      case Some((c, n)) =>
        match DecodeUtf8(b[n..])
        case None => None
        case Some(rest) => Some([c] + rest)
  }

  lemma DivSteps(x: int)
    requires 0 <= x
    ensures x == (x / 64) * 64 + x % 64
    ensures x / 64 / 64 == x / 4096
    ensures x / 4096 / 64 == x / 262144
  {
  }

  lemma DecodeUtf8Char(c: char, rest: seq<byte>)
    ensures DecodeChar(Utf8Char(c) + rest) == Some((c, |Utf8Char(c)|))
  {
    var cp := c as int;
    if cp < 0x80 {
    } else if cp < 0x800 {
      DecodeTwoBytes(c, rest);
    } else if cp < 0x1_0000 {
      DecodeThreeBytes(c, rest);
    } else {
      DecodeFourBytes(c, rest);
    }
  }

  lemma DecodeTwoBytes(c: char, rest: seq<byte>)
    requires 0x80 <= c as int < 0x800
    ensures DecodeChar(Utf8Char(c) + rest) == Some((c, 2))
  {
    var cp := c as int;
    var b := Utf8Char(c) + rest;
    DivSteps(cp);
    assert b[0] as int - 0xC0 == cp / 64;
  }

  lemma DecodeThreeBytes(c: char, rest: seq<byte>)
    requires 0x800 <= c as int < 0x1_0000
    ensures DecodeChar(Utf8Char(c) + rest) == Some((c, 3))
  {
    var cp := c as int;
    var b := Utf8Char(c) + rest;
    DivSteps(cp);
    DivSteps(cp / 64);
    assert ((b[0] as int - 0xE0) * 64 + (b[1] as int - 0x80)) * 64 + (b[2] as int - 0x80) == cp;
  }

  lemma DecodeFourBytes(c: char, rest: seq<byte>)
    requires 0x1_0000 <= c as int
    ensures DecodeChar(Utf8Char(c) + rest) == Some((c, 4))
  {
    var cp := c as int;
    var b := Utf8Char(c) + rest;
    DivSteps(cp);
    DivSteps(cp / 64);
    DivSteps(cp / 4096);
    assert (((b[0] as int - 0xF0) * 64 + (b[1] as int - 0x80)) * 64 + (b[2] as int - 0x80)) * 64
           + (b[3] as int - 0x80) == cp;
  }

  /** UTF-8 decoding undoes UTF-8 encoding. */
  lemma {:induction false} Utf8RoundTrip(s: string)
    ensures DecodeUtf8(Utf8(s)) == Some(s)
  {
    if s != "" {
      var e := Utf8Char(s[0]);
      DecodeUtf8Char(s[0], Utf8(s[1..]));
      assert (e + Utf8(s[1..]))[|e|..] == Utf8(s[1..]);
      Utf8RoundTrip(s[1..]);
      assert [s[0]] + s[1..] == s;
    }
  }

  /** HttpEncoder.IsUrlSafeChar: ASCII letters and digits and -_.!*() */
  predicate IsUrlSafe(c: char) {
    ('a' <= c <= 'z') || ('A' <= c <= 'Z') || ('0' <= c <= '9')
    || c == '-' || c == '_' || c == '.' || c == '!' || c == '*' || c == '(' || c == ')'
  }

  /** IntToHex: lower-case hexadecimal digits. */
  function HexDigit(n: int): (c: char)
    requires 0 <= n < 16
    ensures ('0' <= c <= '9') || ('a' <= c <= 'f')
  {
    if n < 10 then ('0' as int + n) as char else ('a' as int + n - 10) as char
  }

  function HexValue(c: char): Option<int> {
    if '0' <= c <= '9' then Some(c as int - '0' as int)
    else if 'a' <= c <= 'f' then Some(c as int - 'a' as int + 10)
    else if 'A' <= c <= 'F' then Some(c as int - 'A' as int + 10)
    else None
  }

  /** The characters percent-encoding can produce. */
  predicate InEncodedAlphabet(c: char) {
    IsUrlSafe(c) || c == '+' || c == '%'
  }

  /** One byte as UrlEncode writes it: safe ASCII as itself, a space as '+',
      anything else as %xx. */
  function PercentByte(b: byte): (r: string)
    ensures forall k :: 0 <= k < |r| ==> InEncodedAlphabet(r[k])
  {
    if b < 0x80 && IsUrlSafe(b as int as char) then [b as int as char]
    else if b == 0x20 then "+"
    else ['%', HexDigit(b as int / 16), HexDigit(b as int % 16)]
  }

  function PercentEncode(bs: seq<byte>): (r: string)
    ensures forall k :: 0 <= k < |r| ==> InEncodedAlphabet(r[k])
  {
    if bs == [] then "" else PercentByte(bs[0]) + PercentEncode(bs[1..])
  }

  /** HttpUtility.UrlEncode(s): the result never holds '&' or '=', so it can
      stand between the separators of a form-encoded string. */
  function UrlEncode(s: string): (r: string)
    ensures '&' !in r && '=' !in r
  {
    var r := PercentEncode(Utf8(s));
    assert forall k :: 0 <= k < |r| ==> InEncodedAlphabet(r[k]);
    r
  }

  /** Percent-decoding of the encoder's alphabet ('+' is a space). */
  function PercentDecode(t: string): Option<seq<byte>>
    decreases |t|
  {
    if t == "" then Some([])
    else if t[0] == '%' then
      if |t| >= 3 && HexValue(t[1]).Some? && HexValue(t[2]).Some? then
        match PercentDecode(t[3..])
        case None => None
        case Some(rest) => Some([(HexValue(t[1]).value * 16 + HexValue(t[2]).value) as byte] + rest)
      else None
    else if t[0] == '+' then
      match PercentDecode(t[1..])
      case None => None
      case Some(rest) => Some([0x20 as byte] + rest)
    else if t[0] as int < 0x80 then
      match PercentDecode(t[1..])
      case None => None
      case Some(rest) => Some([t[0] as int as byte] + rest)
    else None
  }

  /** HttpUtility.UrlDecode on the strings UrlEncode produces. */
  function UrlDecode(t: string): Option<string> {
    match PercentDecode(t)
    case None => None
    case Some(bs) => DecodeUtf8(bs)
  }

  lemma PercentDecodeByte(b: byte, rest: string)
    ensures PercentDecode(PercentByte(b) + rest)
            == match PercentDecode(rest) case None => None case Some(r) => Some([b] + r)
  {
    var t := PercentByte(b) + rest;
    if b < 0x80 && IsUrlSafe(b as int as char) {
      assert t[1..] == rest;
    } else if b == 0x20 {
      assert t[1..] == rest;
    } else {
      assert t[3..] == rest;
      assert HexValue(t[1]).value * 16 + HexValue(t[2]).value == b as int;
    }
  }

  lemma {:induction false} PercentRoundTrip(bs: seq<byte>)
    ensures PercentDecode(PercentEncode(bs)) == Some(bs)
  {
    if bs != [] {
      PercentRoundTrip(bs[1..]);
      PercentDecodeByte(bs[0], PercentEncode(bs[1..]));
      assert [bs[0]] + bs[1..] == bs;
    }
  }

  /** UrlDecode undoes UrlEncode: distinct keys or values stay distinct. */
  lemma UrlEncodeRoundTrip(s: string)
    ensures UrlDecode(UrlEncode(s)) == Some(s)
  {
    PercentRoundTrip(Utf8(s));
    Utf8RoundTrip(s);
  }

  /** One key=value pair of the parameter string. */
  function EncodePair(p: (string, string)): string {
    UrlEncode(p.0) + "=" + UrlEncode(p.1)
  }

  /** paramStr: the pairs of Params, in enumeration order, joined with '&'. */
  function ParamStr(ps: seq<(string, string)>): (r: string)
    ensures r == "" <==> ps == []
  {
    var pieces := seq(|ps|, i requires 0 <= i < |ps| => EncodePair(ps[i]));
    var r := Join("&", pieces);
    assert ps != [] ==> '=' in r by {
      if ps != [] { JoinStartsWithFirst(pieces); assert r[|UrlEncode(ps[0].0)|] == '='; }
    }
    r
  }

  lemma JoinStartsWithFirst(xs: seq<string>)
    requires xs != []
    ensures StartsWith(Join("&", xs), xs[0])
  {
  }

  /** Reads a parameter string back: split on '&', then on '=', then decode. */
  function ParseParamStr(s: string): Option<seq<(string, string)>> {
    if s == "" then Some([]) else ParsePairs(SplitChar(s, '&'))
  }

  function ParsePairs(pieces: seq<string>): Option<seq<(string, string)>> {
    if pieces == [] then Some([])
    else
      var kv := SplitChar(pieces[0], '=');
      if |kv| != 2 then None
      else match (UrlDecode(kv[0]), UrlDecode(kv[1]), ParsePairs(pieces[1..]))
        case (Some(k), Some(v), Some(rest)) => Some([(k, v)] + rest)
        case _ => None
  }

  lemma ParsePairsOfEncoded(ps: seq<(string, string)>)
    ensures ParsePairs(seq(|ps|, i requires 0 <= i < |ps| => EncodePair(ps[i]))) == Some(ps)
  {
    ParseEncodedPieces(ps, seq(|ps|, i requires 0 <= i < |ps| => EncodePair(ps[i])));
  }

  /** Pieces that are the encoded pairs, in order, parse back to the pairs. */
  lemma {:induction false} ParseEncodedPieces(ps: seq<(string, string)>, pieces: seq<string>)
    requires |pieces| == |ps| && forall i :: 0 <= i < |ps| ==> pieces[i] == EncodePair(ps[i])
    ensures ParsePairs(pieces) == Some(ps)
  {
    if ps != [] {
      ParseEncodedPieces(ps[1..], pieces[1..]);
      ParsePairsCons(pieces, ps[0], ps[1..]);
      assert [ps[0]] + ps[1..] == ps;
    }
  }

  /** An encoded pair in front of pieces that parse puts the pair in front. */
  lemma ParsePairsCons(pieces: seq<string>, p: (string, string), rest: seq<(string, string)>)
    requires pieces != [] && pieces[0] == EncodePair(p) && ParsePairs(pieces[1..]) == Some(rest)
    ensures ParsePairs(pieces) == Some([p] + rest)
  {
    ParseEncodedPair(p);
  }

  /** One encoded pair splits on its '=' into the two encoded halves, and
      each half decodes back. */
  lemma ParseEncodedPair(p: (string, string))
    ensures var kv := SplitChar(EncodePair(p), '=');
            |kv| == 2 && UrlDecode(kv[0]) == Some(p.0) && UrlDecode(kv[1]) == Some(p.1)
  {
    var k, v := UrlEncode(p.0), UrlEncode(p.1);
    assert Join("=", [k, v]) == EncodePair(p);
    SplitJoin([k, v], '=');
    UrlEncodeRoundTrip(p.0);
    UrlEncodeRoundTrip(p.1);
  }

  /** Splitting paramStr on '&' and '=' and decoding each side gives back
      exactly the parameters, in order. */
  lemma ParamStrRoundTrip(ps: seq<(string, string)>)
    ensures ParseParamStr(ParamStr(ps)) == Some(ps)
  {
    var pieces := seq(|ps|, i requires 0 <= i < |ps| => EncodePair(ps[i]));
    if ps != [] {
      forall k | 0 <= k < |pieces| ensures '&' !in pieces[k] {
        var p := ps[k];
        assert pieces[k] == UrlEncode(p.0) + "=" + UrlEncode(p.1);
      }
      SplitJoin(pieces, '&');
      ParsePairsOfEncoded(ps);
    }
  }
}
