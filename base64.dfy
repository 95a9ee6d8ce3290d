/**
 * The base64 encoding of section 4 of RFC 4648: the 64-character alphabet `A-Z a-z 0-9 + /`,
 * padding with `=` to a multiple of four characters. `Decode` is strict: it accepts exactly
 * the strings `Encode` produces (canonical padding, zero pad bits, no other characters).
 */
module Base64 {
  import opened Common

  /** A 6-bit value: the index of one alphabet character. */
  type sextet = x: int | 0 <= x < 64

  /** Table 1 of RFC 4648: the character for each 6-bit value. */
  function CharOf(v: sextet): char
  {
    if v < 26 then ('A' as int + v) as char
    else if v < 52 then ('a' as int + (v - 26)) as char
    else if v < 62 then ('0' as int + (v - 52)) as char
    else if v == 62 then '+'
    else '/'
  }

  /** The inverse of Table 1: the 6-bit value of an alphabet character, or None. */
  function ValueOf(c: char): (r: Option<sextet>)
    ensures r.Some? ==> CharOf(r.value) == c
  {
    if 'A' <= c <= 'Z' then Some(c as int - 'A' as int)
    else if 'a' <= c <= 'z' then Some(c as int - 'a' as int + 26)
    else if '0' <= c <= '9' then Some(c as int - '0' as int + 52)
    else if c == '+' then Some(62)
    else if c == '/' then Some(63)
    else None
  }

  lemma ValueOfCharOf(v: sextet)
    ensures ValueOf(CharOf(v)) == Some(v)
  {
  }

  /** A character that may appear in an encoding: the alphabet or the pad `=`. */
  predicate IsEncodingChar(c: char)
  {
    ValueOf(c).Some? || c == '='
  }

  /** Three octets become four characters (section 4 of RFC 4648). */
  function EncodeGroup(a: byte, b: byte, c: byte): string
  {
    [CharOf(a / 4), CharOf((a % 4) * 16 + b / 16), CharOf((b % 16) * 4 + c / 64), CharOf(c % 64)]
  }

  /** A final group of two octets, padded with one `=`. */
  function EncodeTwo(a: byte, b: byte): string
  {
    [CharOf(a / 4), CharOf((a % 4) * 16 + b / 16), CharOf((b % 16) * 4), '=']
  }

  /** A final group of one octet, padded with `==`. */
  function EncodeOne(a: byte): string
  {
    [CharOf(a / 4), CharOf((a % 4) * 16), '=', '=']
  }

  /** The base64 encoding of `bs` (Node's `buf.toString("base64")`). */
  function Encode(bs: seq<byte>): (s: string)
    ensures |s| == 4 * ((|bs| + 2) / 3)
    decreases |bs|
  {
    if |bs| == 0 then ""
    else if |bs| == 1 then EncodeOne(bs[0])
    else if |bs| == 2 then EncodeTwo(bs[0], bs[1])
    else
      assert (|bs| + 2) / 3 == (|bs| - 1) / 3 + 1;
      EncodeGroup(bs[0], bs[1], bs[2]) + Encode(bs[3..])
  }

  /** Every character of an encoding is an alphabet character or the pad. */
  lemma {:induction false} EncodeAlphabet(bs: seq<byte>)
    ensures forall i :: 0 <= i < |Encode(bs)| ==> IsEncodingChar(Encode(bs)[i])
    decreases |bs|
  {
    if |bs| == 1 {
      OneAlphabet(bs[0]);
    } else if |bs| == 2 {
      TwoAlphabet(bs[0], bs[1]);
    } else if |bs| > 2 {
      var g := EncodeGroup(bs[0], bs[1], bs[2]);
      GroupAlphabet(bs[0], bs[1], bs[2]);
      EncodeAlphabet(bs[3..]);
      ConcatAlphabet(g, Encode(bs[3..]));
    }
  }

  lemma ConcatAlphabet(p: string, q: string)
    requires forall i :: 0 <= i < |p| ==> IsEncodingChar(p[i])
    requires forall i :: 0 <= i < |q| ==> IsEncodingChar(q[i])
    ensures forall i :: 0 <= i < |p + q| ==> IsEncodingChar((p + q)[i])
  {
    forall i | 0 <= i < |p + q| ensures IsEncodingChar((p + q)[i]) {
      if i >= |p| { assert (p + q)[i] == q[i - |p|]; }
    }
  }

  lemma CharAlphabet(v: sextet)
    ensures IsEncodingChar(CharOf(v))
  {
    ValueOfCharOf(v);
  }

  lemma GroupAlphabet(a: byte, b: byte, c: byte)
    ensures forall i :: 0 <= i < 4 ==> IsEncodingChar(EncodeGroup(a, b, c)[i])
  {
    CharAlphabet(a / 4);
    CharAlphabet((a % 4) * 16 + b / 16);
    CharAlphabet((b % 16) * 4 + c / 64);
    CharAlphabet(c % 64);
  }

  lemma TwoAlphabet(a: byte, b: byte)
    ensures forall i :: 0 <= i < 4 ==> IsEncodingChar(EncodeTwo(a, b)[i])
  {
    CharAlphabet(a / 4);
    CharAlphabet((a % 4) * 16 + b / 16);
    CharAlphabet((b % 16) * 4);
  }

  lemma OneAlphabet(a: byte)
    ensures forall i :: 0 <= i < 4 ==> IsEncodingChar(EncodeOne(a)[i])
  {
    CharAlphabet(a / 4);
    CharAlphabet((a % 4) * 16);
  }

  /** The first octet of a group, from its first two sextets. */
  function Octet0(v0: sextet, v1: sextet): byte
  {
    (v0 as int) * 4 + (v1 as int) / 16
  }

  /** The second octet of a group, from its second and third sextets. */
  function Octet1(v1: sextet, v2: sextet): byte
  {
    ((v1 as int) % 16) * 16 + (v2 as int) / 4
  }

  /** The third octet of a group, from its last two sextets. */
  function Octet2(v2: sextet, v3: sextet): byte
  {
    ((v2 as int) % 4) * 64 + v3 as int
  }

  /** Four alphabet characters back to three octets. */
  function DecodeGroup(c0: char, c1: char, c2: char, c3: char): Option<seq<byte>>
  {
    match (ValueOf(c0), ValueOf(c1), ValueOf(c2), ValueOf(c3))
    case (Some(v0), Some(v1), Some(v2), Some(v3)) =>
      Some([Octet0(v0, v1), Octet1(v1, v2), Octet2(v2, v3)])
    case _ => None
  }

  /**
   * The last group of an encoding: four alphabet characters, or three and `=`, or two and
   * `==`; the bits the padding leaves over must be zero.
   */
  function DecodeLast(c0: char, c1: char, c2: char, c3: char): Option<seq<byte>>
  {
    if c2 == '=' && c3 == '=' then
      match (ValueOf(c0), ValueOf(c1))
      case (Some(v0), Some(v1)) =>
        if v1 % 16 == 0 then Some([Octet0(v0, v1)]) else None
      case _ => None
    else if c3 == '=' then
      match (ValueOf(c0), ValueOf(c1), ValueOf(c2))
      case (Some(v0), Some(v1), Some(v2)) =>
        if v2 % 4 == 0 then Some([Octet0(v0, v1), Octet1(v1, v2)]) else None
      case _ => None
    else
      DecodeGroup(c0, c1, c2, c3)
  }

  /** Strict base64 decoding: None for anything `Encode` cannot produce. */
  function Decode(s: string): Option<seq<byte>>
    decreases |s|
  {
    if |s| == 0 then Some([])
    else if |s| < 4 then None
    else if |s| == 4 then DecodeLast(s[0], s[1], s[2], s[3])
    else
      match DecodeGroup(s[0], s[1], s[2], s[3])
      case None => None
      case Some(group) =>
        match Decode(s[4..])
        case None => None
        case Some(rest) => Some(group + rest)
  }

  lemma OctetsOfByte(a: byte, b: byte, c: byte)
    ensures Octet0(a / 4, (a % 4) * 16 + b / 16) == a
    ensures Octet1((a % 4) * 16 + b / 16, (b % 16) * 4 + c / 64) == b
    ensures Octet2((b % 16) * 4 + c / 64, c % 64) == c
  {
    assert ((a % 4) * 16 + b / 16) / 16 == a % 4;
    assert ((a % 4) * 16 + b / 16) % 16 == b / 16;
    assert ((b % 16) * 4 + c / 64) / 4 == b % 16;
    assert ((b % 16) * 4 + c / 64) % 4 == c / 64;
  }

  lemma GroupRoundTrip(a: byte, b: byte, c: byte)
    ensures var e := EncodeGroup(a, b, c); DecodeGroup(e[0], e[1], e[2], e[3]) == Some([a, b, c])
  {
    ValueOfCharOf(a / 4);
    ValueOfCharOf((a % 4) * 16 + b / 16);
    ValueOfCharOf((b % 16) * 4 + c / 64);
    ValueOfCharOf(c % 64);
    OctetsOfByte(a, b, c);
  }

  lemma TwoRoundTrip(a: byte, b: byte)
    ensures var e := EncodeTwo(a, b); DecodeLast(e[0], e[1], e[2], e[3]) == Some([a, b])
  {
    ValueOfCharOf(a / 4);
    ValueOfCharOf((a % 4) * 16 + b / 16);
    ValueOfCharOf((b % 16) * 4);
    OctetsOfByte(a, b, 0);
  }

  lemma OneRoundTrip(a: byte)
    ensures var e := EncodeOne(a); DecodeLast(e[0], e[1], e[2], e[3]) == Some([a])
  {
    ValueOfCharOf(a / 4);
    ValueOfCharOf((a % 4) * 16);
    OctetsOfByte(a, 0, 0);
  }

  /** Decoding an encoding gives back the bytes (section 4 of RFC 4648, both ways round). */
  lemma {:induction false} DecodeEncode(bs: seq<byte>)
    ensures Decode(Encode(bs)) == Some(bs)
    decreases |bs|
  {
    if |bs| == 0 {
    } else if |bs| == 1 {
      OneRoundTrip(bs[0]);
      assert bs == [bs[0]];
    } else if |bs| == 2 {
      TwoRoundTrip(bs[0], bs[1]);
      assert bs == [bs[0], bs[1]];
    } else {
      var g := EncodeGroup(bs[0], bs[1], bs[2]);
      var s := Encode(bs);
      assert s == g + Encode(bs[3..]);
      GroupRoundTrip(bs[0], bs[1], bs[2]);
      assert bs == [bs[0], bs[1], bs[2]] + bs[3..];
      if |bs| == 3 {
        assert bs[3..] == [] && s == g;
        ValueOfCharOf(bs[2] % 64);
        assert ValueOf(g[3]).Some? && g[3] != '=';
        assert Decode(s) == DecodeLast(g[0], g[1], g[2], g[3]) == DecodeGroup(g[0], g[1], g[2], g[3]);
        assert DecodeGroup(g[0], g[1], g[2], g[3]) == Some([bs[0], bs[1], bs[2]]);
        assert [bs[0], bs[1], bs[2]] == bs;
      } else {
        assert s[4..] == Encode(bs[3..]);
        DecodeEncode(bs[3..]);
      }
    }
  }

  lemma SextetsOfOctets(v0: sextet, v1: sextet, v2: sextet, v3: sextet)
    ensures Octet0(v0, v1) / 4 == v0
    ensures (Octet0(v0, v1) % 4) * 16 + Octet1(v1, v2) / 16 == v1
    ensures (Octet1(v1, v2) % 16) * 4 + Octet2(v2, v3) / 64 == v2
    ensures Octet2(v2, v3) % 64 == v3
  {
    assert Octet0(v0, v1) % 4 == v1 / 16;
    assert Octet1(v1, v2) / 16 == v1 % 16;
    assert Octet1(v1, v2) % 16 == v2 / 4;
    assert Octet2(v2, v3) / 64 == v2 % 4;
  }

  lemma GroupCanonical(c0: char, c1: char, c2: char, c3: char)
    requires DecodeGroup(c0, c1, c2, c3).Some?
    ensures var o := DecodeGroup(c0, c1, c2, c3).value;
      |o| == 3 && EncodeGroup(o[0], o[1], o[2]) == [c0, c1, c2, c3]
  {
    var v0, v1, v2, v3 := ValueOf(c0).value, ValueOf(c1).value, ValueOf(c2).value, ValueOf(c3).value;
    SextetsOfOctets(v0, v1, v2, v3);
  }

  lemma LastCanonical(c0: char, c1: char, c2: char, c3: char)
    requires DecodeLast(c0, c1, c2, c3).Some?
    ensures var o := DecodeLast(c0, c1, c2, c3).value;
      1 <= |o| <= 3 && Encode(o) == [c0, c1, c2, c3]
  {
    var o := DecodeLast(c0, c1, c2, c3).value;
    if c2 == '=' && c3 == '=' {
      var v0, v1 := ValueOf(c0).value, ValueOf(c1).value;
      SextetsOfOctets(v0, v1, 0, 0);
      assert Encode(o) == EncodeOne(o[0]);
    } else if c3 == '=' {
      var v0, v1, v2 := ValueOf(c0).value, ValueOf(c1).value, ValueOf(c2).value;
      SextetsOfOctets(v0, v1, v2, 0);
      assert Encode(o) == EncodeTwo(o[0], o[1]);
    } else {
      GroupCanonical(c0, c1, c2, c3);
      assert o[3..] == [];
      assert Encode(o) == EncodeGroup(o[0], o[1], o[2]) + Encode([]);
    }
  }

  /** Only canonical encodings decode: whatever `Decode` accepts is `Encode` of its result. */
  lemma {:induction false} EncodeDecode(s: string)
    requires Decode(s).Some?
    ensures Encode(Decode(s).value) == s
    decreases |s|
  {
    if |s| == 4 {
      EncodeDecodeLast(s);
    } else if |s| != 0 {
      var g, rest := DecodeLonger(s);
      EncodeDecode(s[4..]);
      Reassemble(s, g, rest);
    }
  }

  /** A decodable string of one group is the encoding of what it decodes to. */
  lemma EncodeDecodeLast(s: string)
    requires |s| == 4 && Decode(s).Some?
    ensures Encode(Decode(s).value) == s
  {
    LastCanonical(s[0], s[1], s[2], s[3]);
    assert s == [s[0], s[1], s[2], s[3]];
  }

  /**
   * A decodable string longer than one group decodes group by group, and its first group is
   * the encoding of the first three octets.
   */
  lemma DecodeLonger(s: string) returns (g: seq<byte>, rest: seq<byte>)
    requires Decode(s).Some? && |s| != 0 && |s| != 4
    ensures |s| > 4 && |g| == 3 && EncodeGroup(g[0], g[1], g[2]) == [s[0], s[1], s[2], s[3]]
    ensures Decode(s[4..]) == Some(rest) && Decode(s).value == g + rest
  {
    g := DecodeGroup(s[0], s[1], s[2], s[3]).value;
    rest := Decode(s[4..]).value;
    GroupCanonical(s[0], s[1], s[2], s[3]);
  }

  /** A canonical first group followed by a canonical rest is the encoding of both. */
  lemma Reassemble(s: string, g: seq<byte>, rest: seq<byte>)
    requires |s| > 4 && |g| == 3
    requires EncodeGroup(g[0], g[1], g[2]) == [s[0], s[1], s[2], s[3]]
    requires Encode(rest) == s[4..]
    ensures Encode(g + rest) == s
  {
    var bs := g + rest;
    assert bs[3..] == rest;
    assert [bs[0], bs[1], bs[2]] == g;
    assert s == [s[0], s[1], s[2], s[3]] + s[4..];
  }

  /** `Decode(s)` is `bs` exactly when `s` is the encoding of `bs`. */
  lemma DecodeIff(s: string, bs: seq<byte>)
    ensures Decode(s) == Some(bs) <==> s == Encode(bs)
  {
    if s == Encode(bs) {
      DecodeEncode(bs);
    }
    if Decode(s) == Some(bs) {
      EncodeDecode(s);
    }
  }
}
