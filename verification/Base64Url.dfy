/** Unpadded URL-safe base64 (section 5 of RFC 4648), as far as the streaming
token generator relies on it: how long an encoding is, and that it loses nothing.
*/
module Base64Url {

  type Byte = n: nat | n < 256

  /** The alphabet: upper case, lower case, decimal digits, '-' and '_'. */
  function Digit(n: nat): char
    requires n < 64
  {
    if n < 26 then ('A' as int + n) as char
    else if n < 52 then ('a' as int + n - 26) as char
    else if n < 62 then ('0' as int + n - 52) as char
    else if n == 62 then '-'
    else '_'
  }

  /** The characters for up to three bytes. */
  function EncodeGroup(bs: seq<Byte>): (s: string)
    requires 1 <= |bs| <= 3
    ensures |s| == |bs| + 1
  {
    if |bs| == 1 then
      [Digit(bs[0] / 4), Digit(bs[0] % 4 * 16)]
    else if |bs| == 2 then
      [Digit(bs[0] / 4), Digit(bs[0] % 4 * 16 + bs[1] / 16), Digit(bs[1] % 16 * 4)]
    else
      [Digit(bs[0] / 4), Digit(bs[0] % 4 * 16 + bs[1] / 16), Digit(bs[1] % 16 * 4 + bs[2] / 64), Digit(bs[2] % 64)]
  }

  function Encode(bs: seq<Byte>): string {
    if bs == [] then ""
    else if |bs| <= 3 then EncodeGroup(bs)
    else EncodeGroup(bs[..3]) + Encode(bs[3..])
  }

  /** Eight bits a byte, six bits a character, rounded up. */
  lemma {:induction false} EncodedLength(bs: seq<Byte>)
    ensures |Encode(bs)| == (8 * |bs| + 5) / 6
  {
    if |bs| > 3 {
      EncodedLength(bs[3..]);
    }
  }

  // ----- decoding

  /** The characters that need no escape in a URL. */
  predicate UrlSafe(c: char) {
    'A' <= c <= 'Z' || 'a' <= c <= 'z' || '0' <= c <= '9' || c == '-' || c == '_'
  }

  /** The value of a character in the alphabet. */
  function Value(c: char): nat {
    if 'A' <= c <= 'Z' then c as int - 'A' as int
    else if 'a' <= c <= 'z' then c as int - 'a' as int + 26
    else if '0' <= c <= '9' then c as int - '0' as int + 52
    else if c == '-' then 62
    else 63
  }

  lemma {:induction false} DigitHasValue(n: nat)
    requires n < 64
    ensures UrlSafe(Digit(n)) && Value(Digit(n)) == n
  {
  }

  /** The eight-bit groups of a string of six-bit digits; bits that fill up no byte are dropped. */
  function Decode(s: string): seq<nat> {
    if |s| < 2 then []
    else
      var v0, v1 := Value(s[0]), Value(s[1]);
      var first := v0 * 4 + v1 / 16;
      if |s| == 2 then [first]
      else
        var v2 := Value(s[2]);
        var second := v1 % 16 * 16 + v2 / 4;
        if |s| == 3 then [first, second]
        else [first, second, v2 % 4 * 64 + Value(s[3])] + Decode(s[4..])
  }

  /** A byte is its high and low bits, wherever it is cut. */
  lemma {:induction false} ByteSplit(b: Byte)
    ensures b / 4 < 64 && b / 16 < 16 && b / 64 < 4
    ensures b / 4 * 4 + b % 4 == b && b / 16 * 16 + b % 16 == b && b / 64 * 64 + b % 64 == b
  {
  }

  lemma {:induction false} Unpack16(hi: nat, lo: nat)
    requires hi < 4 && lo < 16
    ensures hi * 16 + lo < 64 && (hi * 16 + lo) / 16 == hi && (hi * 16 + lo) % 16 == lo
  {
  }

  lemma {:induction false} Unpack4(hi: nat, lo: nat)
    requires hi < 16 && lo < 4
    ensures hi * 4 + lo < 64 && (hi * 4 + lo) / 4 == hi && (hi * 4 + lo) % 4 == lo
  {
  }

  lemma {:induction false} GroupValues(bs: seq<Byte>)
    requires 1 <= |bs| <= 3
    ensures var s := EncodeGroup(bs);
            && Value(s[0]) == bs[0] / 4
            && Value(s[1]) == bs[0] % 4 * 16 + (if |bs| > 1 then bs[1] / 16 else 0)
            && (|bs| > 1 ==> Value(s[2]) == bs[1] % 16 * 4 + if |bs| > 2 then bs[2] / 64 else 0)
            && (|bs| > 2 ==> Value(s[3]) == bs[2] % 64)
  {
    DigitHasValue(bs[0] / 4);
    DigitHasValue(bs[0] % 4 * 16 + if |bs| > 1 then bs[1] / 16 else 0);
    if |bs| > 1 {
      DigitHasValue(bs[1] % 16 * 4 + if |bs| > 2 then bs[2] / 64 else 0);
    }
    if |bs| > 2 {
      DigitHasValue(bs[2] % 64);
    }
  }

  lemma {:induction false} OneDecodes(s: string, b0: Byte)
    requires |s| == 2 && Value(s[0]) == b0 / 4 && Value(s[1]) == b0 % 4 * 16
    ensures Decode(s) == [b0]
  {
    Unpack16(b0 % 4, 0);
    ByteSplit(b0);
  }

  lemma {:induction false} TwoDecode(s: string, b0: Byte, b1: Byte)
    requires |s| == 3 && Value(s[0]) == b0 / 4 && Value(s[1]) == b0 % 4 * 16 + b1 / 16 && Value(s[2]) == b1 % 16 * 4
    ensures Decode(s) == [b0, b1]
  {
    ByteSplit(b0);
    ByteSplit(b1);
    Unpack16(b0 % 4, b1 / 16);
    Unpack4(b1 % 16, 0);
  }

  lemma {:induction false} ThreeDecode(s: string, b0: Byte, b1: Byte, b2: Byte)
    requires |s| >= 4 && Value(s[0]) == b0 / 4 && Value(s[1]) == b0 % 4 * 16 + b1 / 16
    requires Value(s[2]) == b1 % 16 * 4 + b2 / 64 && Value(s[3]) == b2 % 64
    ensures Decode(s) == [b0, b1, b2] + Decode(s[4..])
  {
    ByteSplit(b0);
    ByteSplit(b1);
    ByteSplit(b2);
    Unpack16(b0 % 4, b1 / 16);
    Unpack4(b1 % 16, b2 / 64);
  }

  lemma {:induction false} ShortDecodes(bs: seq<Byte>)
    requires 1 <= |bs| < 3
    ensures Decode(EncodeGroup(bs)) == bs
  {
    GroupValues(bs);
    if |bs| == 1 {
      OneDecodes(EncodeGroup(bs), bs[0]);
    } else {
      TwoDecode(EncodeGroup(bs), bs[0], bs[1]);
    }
  }

  lemma {:induction false} LongDecodes(bs: seq<Byte>)
    requires |bs| >= 3
    ensures Decode(Encode(bs)) == bs[..3] + Decode(Encode(bs[3..]))
  {
    var s := Encode(bs);
    EncodeThree(bs);
    GroupValues(bs[..3]);
    assert s[0] == s[..4][0] && s[1] == s[..4][1] && s[2] == s[..4][2] && s[3] == s[..4][3];
    ThreeDecode(s, bs[0], bs[1], bs[2]);
    assert bs[..3] == [bs[0], bs[1], bs[2]];
  }

  /** Decoding gives the bytes back. */
  lemma {:induction false} RoundTrip(bs: seq<Byte>)
    ensures Decode(Encode(bs)) == bs
  {
    if bs == [] {
    } else if |bs| < 3 {
      ShortDecodes(bs);
    } else {
      LongDecodes(bs);
      RoundTrip(bs[3..]);
      assert bs == bs[..3] + bs[3..];
    }
  }

  lemma {:induction false} EncodeThree(bs: seq<Byte>)
    requires |bs| >= 3
    ensures |Encode(bs)| >= 4 && Encode(bs)[..4] == EncodeGroup(bs[..3]) && Encode(bs)[4..] == Encode(bs[3..])
  {
    if |bs| == 3 {
      assert bs[..3] == bs;
    }
  }

  /** All characters are safe in a URL. */
  lemma {:induction false} EncodesUrlSafe(bs: seq<Byte>)
    ensures forall i | 0 <= i < |Encode(bs)| :: UrlSafe(Encode(bs)[i])
  {
    if |bs| > 3 {
      EncodesUrlSafe(bs[3..]);
      GroupUrlSafe(bs[..3]);
    } else if bs != [] {
      GroupUrlSafe(bs);
    }
  }

  lemma {:induction false} GroupUrlSafe(bs: seq<Byte>)
    requires 1 <= |bs| <= 3
    ensures forall i | 0 <= i < |EncodeGroup(bs)| :: UrlSafe(EncodeGroup(bs)[i])
  {
    forall n: nat | n < 64
      ensures UrlSafe(Digit(n))
    {
      DigitHasValue(n);
    }
  }

  /** Different random bytes give different encodings. */
  lemma {:induction false} EncodeInjective(a: seq<Byte>, b: seq<Byte>)
    requires Encode(a) == Encode(b)
    ensures a == b
  {
    RoundTrip(a);
    RoundTrip(b);
  }
}
