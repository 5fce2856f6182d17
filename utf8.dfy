/**
  UTF-8 encoding of a string, as `Buffer.from(string)` performs it before the
  credentials are base64-encoded. A Dafny `char` is a Unicode scalar value, so
  every character has exactly one encoding of one to four octets.
 */
module Utf8 {
  import opened Common

  /** The octets of one scalar value (table 3-6 of the Unicode standard). */
  function EncodeChar(c: char): (r: seq<Byte>)
    ensures 1 <= |r| <= 4
    ensures (c as int < 0x80) == (|r| == 1)
    ensures |r| == 1 ==> r[0] == c as int
    ensures |r| > 1 ==> forall i :: 0 <= i < |r| ==> r[i] >= 0x80
    ensures LeadLength(r[0]) == |r|
    ensures forall i :: 1 <= i < |r| ==> 0x80 <= r[i] < 0xC0
  {
    var n := c as int;
    if n < 0x80 then [n]
    else if n < 0x800 then [0xC0 + n / 64, 0x80 + n % 64]
    else if n < 0x1_0000 then [0xE0 + n / 4096, 0x80 + (n / 64) % 64, 0x80 + n % 64]
    else [0xF0 + n / 262144, 0x80 + (n / 4096) % 64, 0x80 + (n / 64) % 64, 0x80 + n % 64]
  }

  /** The length of the sequence that a lead octet announces. */
  function LeadLength(b: Byte): nat {
    if b < 0x80 then 1 else if b < 0xE0 then 2 else if b < 0xF0 then 3 else 4
  }

  /** Distinct characters have distinct encodings. */
  /** A value below 2^(6k) is fixed by its quotient by 64 and its last six bits. */
  lemma SixBits(n: int, m: int)
    requires 0 <= n && 0 <= m && n / 64 == m / 64 && n % 64 == m % 64
    ensures n == m
  {
    assert n == (n / 64) * 64 + n % 64;
    assert m == (m / 64) * 64 + m % 64;
  }

  /** Distinct characters have distinct encodings. */
  lemma EncodeCharInjective(c: char, d: char)
    requires EncodeChar(c) == EncodeChar(d)
    ensures c == d
  {
    var n, m := c as int, d as int;
    var r := EncodeChar(c);
    if |r| == 2 {
      SixBits(n, m);
    } else if |r| == 3 {
      SixBits(n / 64, m / 64);
      SixBits(n, m);
    } else if |r| == 4 {
      SixBits(n / 4096, m / 4096);
      SixBits(n / 64, m / 64);
      SixBits(n, m);
    }
  }

  function Encode(s: string): (r: seq<Byte>)
    ensures |s| <= |r| <= 4 * |s|
  {
    if s == [] then [] else EncodeChar(s[0]) + Encode(s[1..])
  }

  /** Encoding distributes over concatenation. */
  lemma {:induction false} EncodeAppend(s: string, t: string)
    ensures Encode(s + t) == Encode(s) + Encode(t)
  {
    if s == [] {
      assert s + t == t;
    } else {
      assert (s + t)[1..] == s[1..] + t;
      EncodeAppend(s[1..], t);
    }
  }

  /** A string of ASCII characters encodes to its own character codes. */
  lemma {:induction false} EncodeAscii(s: string)
    requires forall i :: 0 <= i < |s| ==> s[i] as int < 0x80
    ensures |Encode(s)| == |s|
    ensures forall i :: 0 <= i < |s| ==> Encode(s)[i] == s[i] as int
  {
    if s != [] {
      EncodeAscii(s[1..]);
    }
  }

  /** An octet below 0x80 in the encoding stands for that very ASCII character:
      multi-octet sequences never contain one, so `:` in the encoding of
      `user:pass` marks a real colon. */
  lemma {:induction false} AsciiOctetIsChar(s: string, k: int)
    requires 0 <= k < |Encode(s)| && Encode(s)[k] < 0x80
    ensures exists i :: 0 <= i < |s| && s[i] as int == Encode(s)[k]
  {
    var e := EncodeChar(s[0]);
    if k < |e| {
      assert Encode(s)[k] == e[k];
      assert s[0] as int == Encode(s)[k];
    } else {
      assert Encode(s)[k] == Encode(s[1..])[k - |e|];
      AsciiOctetIsChar(s[1..], k - |e|);
      var i :| 0 <= i < |s[1..]| && s[1..][i] as int == Encode(s[1..])[k - |e|];
      assert s[i + 1] as int == Encode(s)[k];
    }
  }

  /** Distinct strings have distinct encodings: the lead octet of each character
      fixes how many octets it takes, so the octets can be cut back into
      characters. */
  lemma {:induction false} EncodeInjective(s: string, t: string)
    requires Encode(s) == Encode(t)
    ensures s == t
  {
    if s != [] && t != [] {
      var es, et := EncodeChar(s[0]), EncodeChar(t[0]);
      assert es[0] == Encode(s)[0] && et[0] == Encode(t)[0];
      assert |es| == |et|;
      assert es == Encode(s)[..|es|] && et == Encode(t)[..|et|];
      EncodeCharInjective(s[0], t[0]);
      assert Encode(s[1..]) == Encode(s)[|es|..] == Encode(t)[|et|..] == Encode(t[1..]);
      EncodeInjective(s[1..], t[1..]);
      assert s == [s[0]] + s[1..] && t == [t[0]] + t[1..];
    }
  }
}
