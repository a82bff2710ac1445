/**
 Base 64 encoding with the standard alphabet and `=` padding (section 4 of RFC 4648), as Go's
 `base64.StdEncoding.EncodeToString` produces it, and a decoder that accepts exactly the canonical
 encodings (section 3.5: the pad bits of the last character are zero) and inverts the encoder.
 */
module Base64 {
  import opened Wrappers
  import opened Strings

  /** The character for a 6-bit value, following Table 1 of RFC 4648. */
  function Char(v: nat): (c: char)
    requires v < 64
    ensures c != '='
  {
    if v < 26 then ('A' as int + v) as char
    else if v < 52 then ('a' as int + (v - 26)) as char
    else if v < 62 then ('0' as int + (v - 52)) as char
    else if v == 62 then '+'
    else '/'
  }

  /** The 6-bit value a character stands for, if it belongs to the alphabet. */
  function Index(c: char): Option<nat>
  {
    if 'A' <= c <= 'Z' then Some(c as int - 'A' as int)
    else if 'a' <= c <= 'z' then Some(c as int - 'a' as int + 26)
    else if '0' <= c <= '9' then Some(c as int - '0' as int + 52)
    else if c == '+' then Some(62)
    else if c == '/' then Some(63)
    else None
  }

  lemma IndexChar(v: nat)
    requires v < 64
    ensures Index(Char(v)) == Some(v)
  {
  }

  lemma CharIndex(c: char)
    requires Index(c).Some?
    ensures Index(c).value < 64 && Char(Index(c).value) == c
  {
  }

  /** The four characters of a full 24-bit group. */
  function EncodeGroup(b0: byte, b1: byte, b2: byte): string {
    [Char(b0 as int / 4), Char(b0 as int % 4 * 16 + b1 as int / 16),
     Char(b1 as int % 16 * 4 + b2 as int / 64), Char(b2 as int % 64)]
  }

  function Encode(b: seq<byte>): (s: string)
    ensures |s| == 4 * ((|b| + 2) / 3)
  {
    if |b| == 0 then ""
    else if |b| == 1 then
      [Char(b[0] as int / 4), Char(b[0] as int % 4 * 16), '=', '=']
    else if |b| == 2 then
      [Char(b[0] as int / 4), Char(b[0] as int % 4 * 16 + b[1] as int / 16),
       Char(b[1] as int % 16 * 4), '=']
    else EncodeGroup(b[0], b[1], b[2]) + Encode(b[3..])
  }

  /** The test vectors of section 10 of RFC 4648: "f", "fo", "foo" and "foobar" in ASCII. */
  lemma KnownAnswers()
    ensures Encode([102]) == "Zg=="
    ensures Encode([102, 111]) == "Zm8="
    ensures Encode([102, 111, 111]) == "Zm9v"
    ensures Encode([102, 111, 111, 98, 97, 114]) == "Zm9vYmFy"
  {
    assert Encode([102, 111, 111]) == EncodeGroup(102, 111, 111) + Encode([]);
    var foobar: seq<byte> := [102, 111, 111, 98, 97, 114];
    assert foobar[3..] == [98, 97, 114];
    assert Encode([98, 97, 114]) == EncodeGroup(98, 97, 114) + Encode([]);
  }

  /** The bytes that 6-bit values carry: the first, second and third byte of a group. */
  function Byte0(c0: nat, c1: nat): byte
    requires c0 < 64 && c1 < 64
  {
    (c0 * 4 + c1 / 16) as byte
  }

  function Byte1(c1: nat, c2: nat): byte
    requires c1 < 64 && c2 < 64
  {
    (c1 % 16 * 16 + c2 / 4) as byte
  }

  function Byte2(c2: nat, c3: nat): byte
    requires c2 < 64 && c3 < 64
  {
    (c2 % 4 * 64 + c3) as byte
  }

  /**
   One group of four characters: three bytes, or one or two when it ends in padding. A padded
   group whose last character carries non-zero pad bits is rejected.
   */
  function DecodeQuad(q: string): (r: Option<seq<byte>>)
    requires |q| == 4
    ensures r.Some? ==> 1 <= |r.value| <= 3
  {
    if Index(q[0]).None? || Index(q[1]).None? then None
    else
      var c0, c1 := Index(q[0]).value, Index(q[1]).value;
      if q[2] == '=' then
        if q[3] == '=' && c1 % 16 == 0 then Some([Byte0(c0, c1)]) else None
      else if Index(q[2]).None? then None
      else
        var c2 := Index(q[2]).value;
        if q[3] == '=' then (if c2 % 4 == 0 then Some([Byte0(c0, c1), Byte1(c1, c2)]) else None)
        else if Index(q[3]).None? then None
        else Some([Byte0(c0, c1), Byte1(c1, c2), Byte2(c2, Index(q[3]).value)])
  }

  /** Decoding of a padded text: groups of four characters, padding only in the last group. */
  function Decode(s: string): Option<seq<byte>>
  {
    if |s| == 0 then Some([])
    else if |s| < 4 then None
    else
      match DecodeQuad(s[..4])
      case None => None
      case Some(g) =>
        if |g| < 3 then (if |s| == 4 then Some(g) else None)
        else
          match Decode(s[4..])
          case None => None
          case Some(rest) => Some(g + rest)
  }

  lemma GroupRoundTrip(b0: byte, b1: byte, b2: byte)
    ensures Byte0(b0 as int / 4, b0 as int % 4 * 16 + b1 as int / 16) == b0
    ensures Byte1(b0 as int % 4 * 16 + b1 as int / 16, b1 as int % 16 * 4 + b2 as int / 64) == b1
    ensures Byte2(b1 as int % 16 * 4 + b2 as int / 64, b2 as int % 64) == b2
  {
  }

  lemma DecodeQuadFull(b0: byte, b1: byte, b2: byte)
    ensures DecodeQuad(EncodeGroup(b0, b1, b2)) == Some([b0, b1, b2])
  {
    var c0, c1 := b0 as int / 4, b0 as int % 4 * 16 + b1 as int / 16;
    var c2, c3 := b1 as int % 16 * 4 + b2 as int / 64, b2 as int % 64;
    GroupRoundTrip(b0, b1, b2);
    IndexChar(c0);
    IndexChar(c1);
    IndexChar(c2);
    IndexChar(c3);
  }

  lemma DecodeQuadOne(b0: byte)
    ensures DecodeQuad([Char(b0 as int / 4), Char(b0 as int % 4 * 16), '=', '=']) == Some([b0])
  {
    GroupRoundTrip(b0, 0, 0);
    IndexChar(b0 as int / 4);
    IndexChar(b0 as int % 4 * 16);
  }

  lemma DecodeQuadTwo(b0: byte, b1: byte)
    ensures DecodeQuad([Char(b0 as int / 4), Char(b0 as int % 4 * 16 + b1 as int / 16),
                        Char(b1 as int % 16 * 4), '=']) == Some([b0, b1])
  {
    GroupRoundTrip(b0, b1, 0);
    IndexChar(b0 as int / 4);
    IndexChar(b0 as int % 4 * 16 + b1 as int / 16);
    IndexChar(b1 as int % 16 * 4);
  }

  lemma DecodeEncodeOne(b: seq<byte>)
    requires |b| == 1
    ensures Decode(Encode(b)) == Some(b)
  {
    var s := Encode(b);
    assert s == [Char(b[0] as int / 4), Char(b[0] as int % 4 * 16), '=', '='];
    DecodeQuadOne(b[0]);
    DecodeLastQuad(s, [b[0]]);
    assert [b[0]] == b;
  }

  lemma DecodeEncodeTwo(b: seq<byte>)
    requires |b| == 2
    ensures Decode(Encode(b)) == Some(b)
  {
    var s := Encode(b);
    assert s == [Char(b[0] as int / 4), Char(b[0] as int % 4 * 16 + b[1] as int / 16),
                 Char(b[1] as int % 16 * 4), '='];
    DecodeQuadTwo(b[0], b[1]);
    DecodeLastQuad(s, [b[0], b[1]]);
    assert [b[0], b[1]] == b;
  }

  /** A padded group decodes on its own. */
  lemma DecodeLastQuad(s: string, g: seq<byte>)
    requires |s| == 4 && DecodeQuad(s) == Some(g) && |g| < 3
    ensures Decode(s) == Some(g)
  {
    assert s[..4] == s;
  }

  lemma DecodeFullThenRest(q: string, t: string, g: seq<byte>, r: seq<byte>)
    requires |q| == 4 && DecodeQuad(q) == Some(g) && |g| == 3
    requires Decode(t) == Some(r)
    ensures Decode(q + t) == Some(g + r)
  {
    assert (q + t)[..4] == q;
    assert (q + t)[4..] == t;
  }

  lemma DecodeEncodeGroup(b: seq<byte>)
    requires |b| >= 3
    requires Decode(Encode(b[3..])) == Some(b[3..])
    ensures Decode(Encode(b)) == Some(b)
  {
    var q, t := EncodeGroup(b[0], b[1], b[2]), Encode(b[3..]);
    assert Encode(b) == q + t;
    DecodeQuadFull(b[0], b[1], b[2]);
    DecodeFullThenRest(q, t, [b[0], b[1], b[2]], b[3..]);
    Regroup(b);
  }

  lemma Regroup<T>(b: seq<T>)
    requires |b| >= 3
    ensures [b[0], b[1], b[2]] + b[3..] == b
  {
  }

  /** Decoding inverts encoding. */
  lemma {:induction false} DecodeEncode(b: seq<byte>)
    ensures Decode(Encode(b)) == Some(b)
  {
    if |b| == 1 {
      DecodeEncodeOne(b);
    } else if |b| == 2 {
      DecodeEncodeTwo(b);
    } else if |b| >= 3 {
      DecodeEncode(b[3..]);
      DecodeEncodeGroup(b);
    }
  }

  /** Distinct byte strings have distinct encodings. */
  lemma EncodeInjective(a: seq<byte>, b: seq<byte>)
    ensures Encode(a) == Encode(b) <==> a == b
  {
    if Encode(a) == Encode(b) {
      DecodeEncode(a);
      DecodeEncode(b);
    }
  }

  /** The characters of one canonical group are the encoding of the bytes it decodes to. */
  lemma QuadCanonical(q: string, g: seq<byte>)
    requires |q| == 4 && DecodeQuad(q) == Some(g)
    ensures |g| == 3 ==> q == EncodeGroup(g[0], g[1], g[2])
    ensures |g| < 3 ==> q == Encode(g)
  {
    CharIndex(q[0]);
    CharIndex(q[1]);
    var c0, c1 := Index(q[0]).value, Index(q[1]).value;
    assert q == [q[0], q[1], q[2], q[3]];
    if q[2] == '=' {
      EncodeOneFromSix(c0, c1);
    } else {
      CharIndex(q[2]);
      var c2 := Index(q[2]).value;
      if q[3] == '=' {
        EncodeTwoFromSix(c0, c1, c2);
      } else {
        CharIndex(q[3]);
        EncodeThreeFromSix(c0, c1, c2, Index(q[3]).value);
      }
    }
  }

  lemma EncodeOneFromSix(c0: nat, c1: nat)
    requires c0 < 64 && c1 < 64 && c1 % 16 == 0
    ensures Encode([Byte0(c0, c1)]) == [Char(c0), Char(c1), '=', '=']
  {
    SplitSix(c0, c1, 0, 0);
  }

  lemma EncodeTwoFromSix(c0: nat, c1: nat, c2: nat)
    requires c0 < 64 && c1 < 64 && c2 < 64 && c2 % 4 == 0
    ensures Encode([Byte0(c0, c1), Byte1(c1, c2)]) == [Char(c0), Char(c1), Char(c2), '=']
  {
    SplitSix(c0, c1, c2, 0);
  }

  lemma EncodeThreeFromSix(c0: nat, c1: nat, c2: nat, c3: nat)
    requires c0 < 64 && c1 < 64 && c2 < 64 && c3 < 64
    ensures EncodeGroup(Byte0(c0, c1), Byte1(c1, c2), Byte2(c2, c3)) == [Char(c0), Char(c1), Char(c2), Char(c3)]
  {
    SplitSix(c0, c1, c2, c3);
  }

  /** Re-encoding the bytes that four 6-bit values carry gives back the values. */
  lemma SplitSix(c0: nat, c1: nat, c2: nat, c3: nat)
    requires c0 < 64 && c1 < 64 && c2 < 64 && c3 < 64
    ensures var b0, b1, b2 := Byte0(c0, c1) as int, Byte1(c1, c2) as int, Byte2(c2, c3) as int;
      && b0 / 4 == c0 && b0 % 4 * 16 + b1 / 16 == c1
      && b1 % 16 * 4 + b2 / 64 == c2 && b2 % 64 == c3
  {
    var b0, b1, b2 := Byte0(c0, c1) as int, Byte1(c1, c2) as int, Byte2(c2, c3) as int;
    assert b0 == c0 * 4 + c1 / 16 && b1 == c1 % 16 * 16 + c2 / 4 && b2 == c2 % 4 * 64 + c3;
    assert c1 == c1 / 16 * 16 + c1 % 16;
    assert c2 == c2 / 4 * 4 + c2 % 4;
  }

  /** Only the encoding of `b` decodes to `b`: the decoder accepts canonical text alone. */
  lemma {:induction false} EncodeDecode(s: string, b: seq<byte>)
    requires Decode(s) == Some(b)
    ensures s == Encode(b)
    decreases |s|
  {
    if |s| > 0 {
      var g := DecodeQuad(s[..4]).value;
      QuadCanonical(s[..4], g);
      if |g| < 3 {
        assert s == s[..4];
      } else {
        var rest := Decode(s[4..]).value;
        EncodeDecode(s[4..], rest);
        assert s == s[..4] + s[4..];
        EncodeFullThenRest(g, rest);
      }
    }
  }

  /** The encoding of a full group followed by more bytes is the group's four characters first. */
  lemma EncodeFullThenRest(g: seq<byte>, rest: seq<byte>)
    requires |g| == 3
    ensures Encode(g + rest) == EncodeGroup(g[0], g[1], g[2]) + Encode(rest)
  {
    assert (g + rest)[3..] == rest;
  }

  /** A text decodes to `b` exactly when it is the encoding of `b`. */
  lemma DecodeIffEncode(s: string, b: seq<byte>)
    ensures Decode(s) == Some(b) <==> s == Encode(b)
  {
    if Decode(s) == Some(b) {
      EncodeDecode(s, b);
    } else {
      DecodeEncode(b);
    }
  }

  ghost predicate PaddedFor(n: nat, s: string) {
    && |s| == 4 * ((n + 2) / 3)
    && (n % 3 == 0 ==> '=' !in s)
    && (n % 3 == 1 ==> s[|s| - 2] == '=' && s[|s| - 1] == '=')
    && (n % 3 == 2 ==> s[|s| - 2] != '=' && s[|s| - 1] == '=')
  }

  lemma PaddedAfterGroup(n: nat, q: string, t: string)
    requires |q| == 4 && '=' !in q
    requires PaddedFor(n, t)
    ensures PaddedFor(n + 3, q + t)
  {
    var s := q + t;
    if n % 3 != 0 {
      assert |t| >= 4;
      assert s[|s| - 1] == t[|t| - 1] && s[|s| - 2] == t[|t| - 2];
    }
  }

  /** Padding: none for a whole number of groups, `==` for one byte left over, `=` for two. */
  lemma {:induction false} EncodePadding(b: seq<byte>)
    ensures PaddedFor(|b|, Encode(b))
  {
    if |b| >= 3 {
      EncodePadding(b[3..]);
      var q := EncodeGroup(b[0], b[1], b[2]);
      assert Encode(b) == q + Encode(b[3..]);
      PaddedAfterGroup(|b| - 3, q, Encode(b[3..]));
    }
  }
}
