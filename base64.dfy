/**
  The base64 encoding of section 4 of RFC 4648 (standard alphabet, `=` padding),
  as produced by Node's `Buffer.prototype.toString('base64')`, together with a
  strict decoder that accepts exactly the canonical encodings.
 */
module Base64 {
  import opened Common

  const Pad: char := '='

  predicate IsAlphabetChar(c: char) {
    'A' <= c <= 'Z' || 'a' <= c <= 'z' || '0' <= c <= '9' || c == '+' || c == '/'
  }

  /** The character that encodes the 6-bit value `v`: Table 1 of RFC 4648
      ("A".."Z" are 0..25, "a".."z" 26..51, "0".."9" 52..61, "+" 62, "/" 63). */
  function CharOf(v: int): (c: char)
    requires 0 <= v < 64
    ensures IsAlphabetChar(c)
  {
    if v < 26 then (65 + v) as char
    else if v < 52 then (97 + v - 26) as char
    else if v < 62 then (48 + v - 52) as char
    else if v == 62 then '+'
    else '/'
  }

  /** The 6-bit value a character of the alphabet stands for. */
  function ValueOf(c: char): (v: int)
    requires IsAlphabetChar(c)
    ensures 0 <= v < 64 && CharOf(v) == c
  {
    if 'A' <= c <= 'Z' then c as int - 65
    else if 'a' <= c <= 'z' then c as int - 97 + 26
    else if '0' <= c <= '9' then c as int - 48 + 52
    else if c == '+' then 62
    else 63
  }

  lemma ValueOfCharOf(v: int)
    requires 0 <= v < 64
    ensures ValueOf(CharOf(v)) == v
  {
  }

  /** Three octets become four characters (section 4 of RFC 4648). */
  function EncodeGroup(b0: Byte, b1: Byte, b2: Byte): string {
    [CharOf(b0 / 4), CharOf((b0 % 4) * 16 + b1 / 16), CharOf((b1 % 16) * 4 + b2 / 64), CharOf(b2 % 64)]
  }

  /** A final group of one octet: two characters and "==". */
  function EncodeFinal1(b0: Byte): string {
    [CharOf(b0 / 4), CharOf((b0 % 4) * 16), Pad, Pad]
  }

  /** A final group of two octets: three characters and "=". */
  function EncodeFinal2(b0: Byte, b1: Byte): string {
    [CharOf(b0 / 4), CharOf((b0 % 4) * 16 + b1 / 16), CharOf((b1 % 16) * 4), Pad]
  }

  /** Whether `s` consists of alphabet characters only. */
  predicate AllAlphabet(s: string) {
    forall i :: 0 <= i < |s| ==> IsAlphabetChar(s[i])
  }

  function Encode(b: seq<Byte>): (r: string)
    ensures |r| == 4 * ((|b| + 2) / 3)
    ensures forall i :: 0 <= i < |r| ==> IsAlphabetChar(r[i]) || r[i] == Pad
    decreases |b|
  {
    if |b| == 0 then ""
    else if |b| == 1 then EncodeFinal1(b[0])
    else if |b| == 2 then EncodeFinal2(b[0], b[1])
    else EncodeGroup(b[0], b[1], b[2]) + Encode(b[3..])
  }

  /**
    Four characters back to one, two or three octets. Only canonical groups are
    accepted: the bits that the padding makes unused must be zero (section 3.5
    of RFC 4648).
   */
  function DecodeGroup(q: string): Option<seq<Byte>>
    requires |q| == 4
  {
    if !IsAlphabetChar(q[0]) || !IsAlphabetChar(q[1]) then None
    else
      var v0, v1 := ValueOf(q[0]), ValueOf(q[1]);
      if q[2] == Pad && q[3] == Pad then
        if v1 % 16 == 0 then Some([v0 * 4 + v1 / 16]) else None
      else if !IsAlphabetChar(q[2]) then None
      else
        var v2 := ValueOf(q[2]);
        if q[3] == Pad then
          if v2 % 4 == 0 then Some([v0 * 4 + v1 / 16, (v1 % 16) * 16 + v2 / 4]) else None
        else if !IsAlphabetChar(q[3]) then None
        else Some([v0 * 4 + v1 / 16, (v1 % 16) * 16 + v2 / 4, (v2 % 4) * 64 + ValueOf(q[3])])
  }

  /** The decoder: a sequence of groups, of which only the last may be padded. */
  function Decode(s: string): Option<seq<Byte>>
    decreases |s|
  {
    if |s| < 4 then (if |s| == 0 then Some([]) else None)
    else match DecodeGroup(s[..4])
      case None => None
      case Some(head) =>
        if |s| == 4 then Some(head)
        else if |head| < 3 then None
        else match Decode(s[4..])
          case None => None
          case Some(tail) => Some(head + tail)
  }

  /** The bit regrouping of section 4 of RFC 4648 loses nothing: 8+8+8 bits
      cut into 6+6+6+6 bits and joined again give the same octets. */
  lemma Regroup(b0: Byte, b1: Byte, b2: Byte)
    ensures (b0 / 4) * 4 + ((b0 % 4) * 16 + b1 / 16) / 16 == b0
    ensures (((b0 % 4) * 16 + b1 / 16) % 16) * 16 + ((b1 % 16) * 4 + b2 / 64) / 4 == b1
    ensures (((b1 % 16) * 4 + b2 / 64) % 4) * 64 + b2 % 64 == b2
  {
  }

  lemma DecodeEncodeGroup(b0: Byte, b1: Byte, b2: Byte)
    ensures DecodeGroup(EncodeGroup(b0, b1, b2)) == Some([b0, b1, b2])
  {
    var q := EncodeGroup(b0, b1, b2);
    var v0, v1, v2, v3 := b0 / 4, (b0 % 4) * 16 + b1 / 16, (b1 % 16) * 4 + b2 / 64, b2 % 64;
    ValueOfCharOf(v0);
    ValueOfCharOf(v1);
    ValueOfCharOf(v2);
    ValueOfCharOf(v3);
    assert ValueOf(q[0]) == v0 && ValueOf(q[1]) == v1 && ValueOf(q[2]) == v2 && ValueOf(q[3]) == v3;
    Regroup(b0, b1, b2);
  }

  lemma DecodeEncodeFinal1(b0: Byte)
    ensures DecodeGroup(EncodeFinal1(b0)) == Some([b0])
  {
    var q := EncodeFinal1(b0);
    var v0, v1 := b0 / 4, (b0 % 4) * 16;
    ValueOfCharOf(v0);
    ValueOfCharOf(v1);
    assert ValueOf(q[0]) == v0 && ValueOf(q[1]) == v1;
    Regroup(b0, 0, 0);
  }

  lemma DecodeEncodeFinal2(b0: Byte, b1: Byte)
    ensures DecodeGroup(EncodeFinal2(b0, b1)) == Some([b0, b1])
  {
    var q := EncodeFinal2(b0, b1);
    var v0, v1, v2 := b0 / 4, (b0 % 4) * 16 + b1 / 16, (b1 % 16) * 4;
    ValueOfCharOf(v0);
    ValueOfCharOf(v1);
    ValueOfCharOf(v2);
    assert ValueOf(q[0]) == v0 && ValueOf(q[1]) == v1 && ValueOf(q[2]) == v2;
    Regroup(b0, b1, 0);
  }

  lemma DecodeEncodeFinal(b: seq<Byte>)
    requires 1 <= |b| <= 2
    ensures |Encode(b)| == 4 && DecodeGroup(Encode(b)) == Some(b)
  {
    if |b| == 1 {
      DecodeEncodeFinal1(b[0]);
      assert b == [b[0]];
    } else {
      DecodeEncodeFinal2(b[0], b[1]);
      assert b == [b[0], b[1]];
    }
  }

  /** A full group followed by a decodable rest decodes group by group. */
  lemma DecodeCons(g: string, rest: string, head: seq<Byte>, tail: seq<Byte>)
    requires |g| == 4 && DecodeGroup(g) == Some(head) && |head| == 3
    requires Decode(rest) == Some(tail)
    ensures Decode(g + rest) == Some(head + tail)
  {
    var s := g + rest;
    assert s[..4] == g;
    if rest == [] {
      assert s == g;
      assert head + tail == head;
    } else {
      assert s[4..] == rest;
    }
  }

  /** Decoding undoes encoding, for every octet sequence. */
  lemma {:induction false} DecodeEncode(b: seq<Byte>)
    ensures Decode(Encode(b)) == Some(b)
    decreases |b|
  {
    if |b| == 0 {
    } else if |b| <= 2 {
      DecodeEncodeFinal(b);
    } else {
      var head, tail := b[..3], b[3..];
      assert head == [b[0], b[1], b[2]] && b == head + tail;
      assert Encode(b) == EncodeGroup(b[0], b[1], b[2]) + Encode(tail);
      DecodeEncodeGroup(b[0], b[1], b[2]);
      DecodeEncode(tail);
      DecodeCons(EncodeGroup(b[0], b[1], b[2]), Encode(tail), head, tail);
    }
  }

  /** The converse regrouping: 6+6+6+6 bits joined into octets and cut again. */
  lemma Ungroup(v0: int, v1: int, v2: int, v3: int)
    requires 0 <= v0 < 64 && 0 <= v1 < 64 && 0 <= v2 < 64 && 0 <= v3 < 64
    ensures var b0, b1, b2 := v0 * 4 + v1 / 16, (v1 % 16) * 16 + v2 / 4, (v2 % 4) * 64 + v3;
      0 <= b0 < 256 && 0 <= b1 < 256 && 0 <= b2 < 256 &&
      b0 / 4 == v0 && (b0 % 4) * 16 + b1 / 16 == v1 && (b1 % 16) * 4 + b2 / 64 == v2 && b2 % 64 == v3
  {
  }

  lemma EncodeDecodeGroup1(q: string, h: seq<Byte>)
    requires |q| == 4 && DecodeGroup(q) == Some(h) && q[2] == Pad && q[3] == Pad
    ensures |h| == 1 && Encode(h) == q
  {
    var v0, v1 := ValueOf(q[0]), ValueOf(q[1]);
    Ungroup(v0, v1, 0, 0);
    assert h == [v0 * 4 + v1 / 16];
    var e := EncodeFinal1(h[0]);
    assert e[0] == q[0] && e[1] == q[1];
  }

  lemma EncodeDecodeGroup2(q: string, h: seq<Byte>)
    requires |q| == 4 && DecodeGroup(q) == Some(h) && q[2] != Pad && q[3] == Pad
    ensures |h| == 2 && Encode(h) == q
  {
    var v0, v1, v2 := ValueOf(q[0]), ValueOf(q[1]), ValueOf(q[2]);
    Ungroup(v0, v1, v2, 0);
    var b0, b1 := v0 * 4 + v1 / 16, (v1 % 16) * 16 + v2 / 4;
    assert h == [b0, b1];
    assert (v2 % 4) * 64 + 0 == 0;
    assert (b1 % 16) * 4 == v2;
    var e := EncodeFinal2(b0, b1);
    assert e[0] == q[0] && e[1] == q[1] && e[2] == q[2];
  }

  /** Four alphabet characters are the encoding of the octets they join into. */
  lemma EncodeJoined(q: string, b0: Byte, b1: Byte, b2: Byte)
    requires |q| == 4 && AllAlphabet(q)
    requires b0 == ValueOf(q[0]) * 4 + ValueOf(q[1]) / 16
    requires b1 == (ValueOf(q[1]) % 16) * 16 + ValueOf(q[2]) / 4
    requires b2 == (ValueOf(q[2]) % 4) * 64 + ValueOf(q[3])
    ensures EncodeGroup(b0, b1, b2) == q
  {
    var v0, v1, v2, v3 := ValueOf(q[0]), ValueOf(q[1]), ValueOf(q[2]), ValueOf(q[3]);
    Ungroup(v0, v1, v2, v3);
    assert b0 / 4 == v0 && (b0 % 4) * 16 + b1 / 16 == v1 && (b1 % 16) * 4 + b2 / 64 == v2 && b2 % 64 == v3;
    assert CharOf(v0) == q[0] && CharOf(v1) == q[1] && CharOf(v2) == q[2] && CharOf(v3) == q[3];
  }

  lemma EncodeDecodeGroup3(q: string, h: seq<Byte>)
    requires |q| == 4 && DecodeGroup(q) == Some(h) && q[2] != Pad && q[3] != Pad
    ensures |h| == 3 && EncodeGroup(h[0], h[1], h[2]) == q
  {
    assert IsAlphabetChar(q[0]) && IsAlphabetChar(q[1]) && IsAlphabetChar(q[2]) && IsAlphabetChar(q[3]);
    assert h == [ValueOf(q[0]) * 4 + ValueOf(q[1]) / 16, (ValueOf(q[1]) % 16) * 16 + ValueOf(q[2]) / 4,
                 (ValueOf(q[2]) % 4) * 64 + ValueOf(q[3])];
    EncodeJoined(q, h[0], h[1], h[2]);
  }

  /** A group the decoder accepts is the encoding of what it decodes to. */
  lemma EncodeDecodeGroup(q: string, h: seq<Byte>)
    requires |q| == 4 && DecodeGroup(q) == Some(h)
    ensures 1 <= |h| <= 3
    ensures |h| == 3 ==> EncodeGroup(h[0], h[1], h[2]) == q
    ensures |h| < 3 ==> Encode(h) == q
  {
    if q[3] != Pad {
      EncodeDecodeGroup3(q, h);
    } else if q[2] == Pad {
      EncodeDecodeGroup1(q, h);
    } else {
      EncodeDecodeGroup2(q, h);
    }
  }

  /** Encoding undoes decoding: the decoder accepts only canonical encodings. */
  lemma {:induction false} EncodeDecode(s: string, b: seq<Byte>)
    requires Decode(s) == Some(b)
    ensures Encode(b) == s
    decreases |s|
  {
    if |s| >= 4 {
      var head := DecodeGroup(s[..4]).value;
      EncodeDecodeGroup(s[..4], head);
      if |s| == 4 {
        assert s == s[..4];
      } else {
        var tail := Decode(s[4..]).value;
        EncodeDecode(s[4..], tail);
        assert b == head + tail;
        assert b[3..] == tail;
        assert s == s[..4] + s[4..];
      }
    }
  }

  /** Decode is exactly the inverse of Encode. */
  lemma DecodeIffEncode(s: string, b: seq<Byte>)
    ensures Decode(s) == Some(b) <==> Encode(b) == s
  {
    if Decode(s) == Some(b) {
      EncodeDecode(s, b);
    }
    if Encode(b) == s {
      DecodeEncode(b);
    }
  }

  /** The test vectors of section 10 of RFC 4648 ("", "f", "fo", "foo", "foob", "fooba", "foobar"). */
  lemma TestVectors()
    ensures Encode([]) == ""
    ensures Encode([0x66]) == "Zg=="
    ensures Encode([0x66, 0x6F]) == "Zm8="
    ensures Encode([0x66, 0x6F, 0x6F]) == "Zm9v"
    ensures Encode([0x66, 0x6F, 0x6F, 0x62]) == "Zm9vYg=="
    ensures Encode([0x66, 0x6F, 0x6F, 0x62, 0x61]) == "Zm9vYmE="
    ensures Encode([0x66, 0x6F, 0x6F, 0x62, 0x61, 0x72]) == "Zm9vYmFy"
  {
    assert [0x66, 0x6F, 0x6F, 0x62][3..] == [0x62];
    assert [0x66, 0x6F, 0x6F, 0x62, 0x61][3..] == [0x62, 0x61];
    assert [0x66, 0x6F, 0x6F, 0x62, 0x61, 0x72][3..] == [0x62, 0x61, 0x72];
    assert [0x62, 0x61, 0x72][3..] == [];
  }
}
