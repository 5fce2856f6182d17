/**
  The one piece of JSON the client produces: `JSON.stringify({AuthToken: token})`,
  the in-band handshake message. String quoting follows the QuoteJSONString
  operation of ECMAScript (section 25.5.2.3 of ECMA-262). A reader of JSON
  strings is given alongside, to state what the server gets back.
 */
module Json {
  import opened Common

  /** Characters that QuoteJSONString writes as an escape sequence. */
  predicate NeedsEscape(c: char) {
    c == '"' || c == '\\' || c as int < 0x20
  }

  /** A lower-case hexadecimal digit, as QuoteJSONString writes them. */
  function HexDigit(d: int): (c: char)
    requires 0 <= d < 16
    ensures '0' <= c <= '9' || 'a' <= c <= 'f'
  {
    if d < 10 then (48 + d) as char else (87 + d) as char
  }

  /** The value of a hexadecimal digit of either case. */
  function HexValue(c: char): (r: Option<int>)
    ensures r.Some? ==> 0 <= r.value < 16
    ensures r.Some? <==> ('0' <= c <= '9' || 'a' <= c <= 'f' || 'A' <= c <= 'F')
  {
    if '0' <= c <= '9' then Some(c as int - 48)
    else if 'a' <= c <= 'f' then Some(c as int - 87)
    else if 'A' <= c <= 'F' then Some(c as int - 55)
    else None
  }

  lemma HexValueOfDigit(d: int)
    requires 0 <= d < 16
    ensures HexValue(HexDigit(d)) == Some(d)
  {
  }

  /** How QuoteJSONString writes one character. */
  function EscapeChar(c: char): (r: string)
    ensures !NeedsEscape(c) <==> r == [c]
    ensures NeedsEscape(c) ==> 2 <= |r| && r[0] == '\\'
  {
    if c == '"' then "\\\""
    else if c == '\\' then "\\\\"
    else if c as int == 0x08 then "\\b"
    else if c as int == 0x09 then "\\t"
    else if c as int == 0x0A then "\\n"
    else if c as int == 0x0C then "\\f"
    else if c as int == 0x0D then "\\r"
    else if c as int < 0x20 then ['\\', 'u', '0', '0', HexDigit(c as int / 16), HexDigit(c as int % 16)]
    else [c]
  }

  /** The characters of a string value between its quotes. */
  function Escape(s: string): (r: string)
    ensures |s| <= |r|
  {
    if s == [] then [] else EscapeChar(s[0]) + Escape(s[1..])
  }

  /** The JSON text of a string value: the escaped characters between two quotes. */
  function Quote(s: string): (r: string)
    ensures 2 + |s| <= |r| && r[0] == '"' && r[|r| - 1] == '"'
  {
    "\"" + Escape(s) + "\""
  }

  const HandshakePrefix: string := "{\"AuthToken\":\""
  const HandshakeSuffix: string := "\"}"

  /** `JSON.stringify({AuthToken: token})`: no white space, one member. */
  function HandshakeMessage(token: string): (r: string)
    ensures |HandshakePrefix| + |token| + |HandshakeSuffix| <= |r|
    ensures r[..|HandshakePrefix|] == HandshakePrefix && r[|r| - |HandshakeSuffix|..] == HandshakeSuffix
  {
    "{\"AuthToken\":" + Quote(token) + "}"
  }

  /** The reader takes exactly the text between the fixed prefix and suffix. */
  lemma ReadFramed(e: string)
    ensures ReadHandshake(HandshakePrefix + e + HandshakeSuffix) == Unescape(e)
  {
    var m := HandshakePrefix + e + HandshakeSuffix;
    assert m[..|HandshakePrefix|] == HandshakePrefix;
    assert m[|m| - |HandshakeSuffix|..] == HandshakeSuffix;
    assert m[|HandshakePrefix|..|m| - |HandshakeSuffix|] == e;
  }

  /** A string in which no character needs escaping is written as it is. */
  lemma {:induction false} EscapePlain(s: string)
    requires forall i :: 0 <= i < |s| ==> !NeedsEscape(s[i])
    ensures Escape(s) == s
  {
    if s != [] {
      EscapePlain(s[1..]);
    }
  }

  /** The handshake of a token without quote, backslash or control characters is the
      token placed verbatim between `{"AuthToken":"` and `"}`. */
  lemma HandshakePlain(token: string)
    requires forall i :: 0 <= i < |token| ==> !NeedsEscape(token[i])
    ensures HandshakeMessage(token) == HandshakePrefix + token + HandshakeSuffix
  {
    EscapePlain(token);
    HandshakeOfEscaped(token, token);
  }

  /** The handshake is the escaped token between the fixed prefix and suffix. */
  lemma HandshakeOfEscaped(token: string, e: string)
    requires Escape(token) == e
    ensures HandshakeMessage(token) == HandshakePrefix + e + HandshakeSuffix
  {
    assert Quote(token) == "\"" + e + "\"";
    assert "{\"AuthToken\":" + ("\"" + e + "\"") + "}" == HandshakePrefix + e + HandshakeSuffix;
  }

  function Prepend(c: char, rest: Option<string>): Option<string> {
    match rest
    case None => None
    case Some(t) => Some([c] + t)
  }

  /** The value of four hexadecimal digits, if they are digits. */
  function Hex4(h: string): (r: Option<int>)
    requires |h| == 4
    ensures r.Some? ==> 0 <= r.value < 0x1_0000
  {
    match (HexValue(h[0]), HexValue(h[1]), HexValue(h[2]), HexValue(h[3]))
    case (Some(a), Some(b), Some(c), Some(d)) => Some(((a * 16 + b) * 16 + c) * 16 + d)
    case _ => None
  }

  /**
    The characters between the quotes of a JSON string (section 7 of RFC 8259),
    read back into the string they denote; None when the text is not the body
    of a JSON string. An escaped UTF-16 surrogate is refused, since a `char`
    here cannot hold one.
   */
  function Unescape(e: string): Option<string>
    decreases |e|
  {
    if e == [] then Some([])
    else if e[0] == '"' || e[0] as int < 0x20 then None
    else if e[0] != '\\' then Prepend(e[0], Unescape(e[1..]))
    else if |e| < 2 then None
    else match e[1]
      case '"' => Prepend('"', Unescape(e[2..]))
      case '\\' => Prepend('\\', Unescape(e[2..]))
      case '/' => Prepend('/', Unescape(e[2..]))
      case 'b' => Prepend(0x08 as char, Unescape(e[2..]))
      case 't' => Prepend(0x09 as char, Unescape(e[2..]))
      case 'n' => Prepend(0x0A as char, Unescape(e[2..]))
      case 'f' => Prepend(0x0C as char, Unescape(e[2..]))
      case 'r' => Prepend(0x0D as char, Unescape(e[2..]))
      case 'u' =>
        if |e| < 6 then None
        else (match Hex4(e[2..6])
          case None => None
          case Some(v) =>
            if 0xD800 <= v < 0xE000 then None else Prepend(v as char, Unescape(e[6..])))
      case _ => None
  }

  lemma UnescapeChar(c: char, rest: string)
    ensures Unescape(EscapeChar(c) + rest) == Prepend(c, Unescape(rest))
  {
    var e := EscapeChar(c) + rest;
    if !NeedsEscape(c) {
      assert e[1..] == rest;
    } else if |EscapeChar(c)| == 2 {
      assert e[2..] == rest;
    } else {
      var n := c as int;
      HexValueOfDigit(n / 16);
      HexValueOfDigit(n % 16);
      assert e[2..6] == ['0', '0', HexDigit(n / 16), HexDigit(n % 16)];
      assert Hex4(e[2..6]) == Some(n);
      assert e[6..] == rest;
    }
  }

  /** What a JSON reader finds in a one-member object `{"AuthToken":"..."}`. */
  function ReadHandshake(m: string): Option<string> {
    if |m| >= |HandshakePrefix| + |HandshakeSuffix|
       && m[..|HandshakePrefix|] == HandshakePrefix && m[|m| - |HandshakeSuffix|..] == HandshakeSuffix
    then Unescape(m[|HandshakePrefix|..|m| - |HandshakeSuffix|])
    else None
  }

  /** Reading an escaped string gives back the string. */
  lemma {:induction false} UnescapeEscape(s: string)
    ensures Unescape(Escape(s)) == Some(s)
  {
    if s != [] {
      UnescapeChar(s[0], Escape(s[1..]));
      UnescapeEscape(s[1..]);
      assert [s[0]] + s[1..] == s;
    }
  }

  /** The handshake message carries the token unaltered, whatever characters it holds. */
  lemma ReadHandshakeMessage(token: string)
    ensures ReadHandshake(HandshakeMessage(token)) == Some(token)
  {
    HandshakeOfEscaped(token, Escape(token));
    ReadFramed(Escape(token));
    UnescapeEscape(token);
  }
}
