/** UTF-8 (section 3 of RFC 3629) and the budgeted truncation that cuts encoded bytes. */
module Utf8 {
  import opened Wrappers

  type Byte = x: int | 0 <= x < 256

  function EncodeChar(c: char): (r: seq<Byte>)
    ensures 1 <= |r| <= 4
  {
    var n := c as int;
    if n < 0x80 then [n]
    else if n < 0x800 then [0xC0 + n / 0x40, 0x80 + n % 0x40]
    else if n < 0x1_0000 then [0xE0 + n / 0x1000, 0x80 + n / 0x40 % 0x40, 0x80 + n % 0x40]
    else [0xF0 + n / 0x4_0000, 0x80 + n / 0x1000 % 0x40, 0x80 + n / 0x40 % 0x40, 0x80 + n % 0x40]
  }

  function Encode(s: string): (r: seq<Byte>) {
    if s == [] then [] else EncodeChar(s[0]) + Encode(s[1..])
  }

  function ByteLen(s: string): nat {
    |Encode(s)|
  }

  predicate Tail(b: Byte) {
    0x80 <= b < 0xC0
  }

  /** Six more bits of a scalar value. */
  function Join(high: int, tail: Byte): int {
    high * 0x40 + tail - 0x80
  }

  /** The character that the bytes start with and its length; only shortest forms of
      scalar values are accepted. */
  function DecodeFirst(b: seq<Byte>): (r: Option<(char, nat)>)
    ensures r.Some? ==> 1 <= r.value.1 <= |b|
  {
    if b == [] then None
    else if b[0] < 0x80 then Some((b[0] as char, 1))
    else if b[0] < 0xE0 then DecodeTwo(b)
    else if b[0] < 0xF0 then DecodeThree(b)
    else DecodeFour(b)
  }

  function DecodeTwo(b: seq<Byte>): (r: Option<(char, nat)>)
    requires b != [] && 0x80 <= b[0] < 0xE0
    ensures r.Some? ==> 2 == r.value.1 <= |b|
  {
    if b[0] < 0xC2 || |b| < 2 || !Tail(b[1]) then None
    else Some((Join(b[0] - 0xC0, b[1]) as char, 2))
  }

  function DecodeThree(b: seq<Byte>): (r: Option<(char, nat)>)
    requires b != [] && 0xE0 <= b[0] < 0xF0
    ensures r.Some? ==> 3 == r.value.1 <= |b|
  {
    if |b| < 3 || !Tail(b[1]) || !Tail(b[2]) then None
    else if (b[0] == 0xE0 && b[1] < 0xA0) || (b[0] == 0xED && b[1] >= 0xA0) then None
    else Some((Join(Join(b[0] - 0xE0, b[1]), b[2]) as char, 3))
  }

  function DecodeFour(b: seq<Byte>): (r: Option<(char, nat)>)
    requires b != [] && 0xF0 <= b[0]
    ensures r.Some? ==> 4 == r.value.1 <= |b|
  {
    if b[0] > 0xF4 || |b| < 4 || !Tail(b[1]) || !Tail(b[2]) || !Tail(b[3]) then None
    else if (b[0] == 0xF0 && b[1] < 0x90) || (b[0] == 0xF4 && b[1] >= 0x90) then None
    else
      Some((Join(Join(Join(b[0] - 0xF0, b[1]), b[2]), b[3]) as char, 4))
  }

  /** Decoding with `errors="ignore"`: bytes that start no character are skipped. */
  function DecodeIgnore(b: seq<Byte>): (r: string) {
    if b == [] then []
    else
      match DecodeFirst(b)
      case Some((c, k)) => [c] + DecodeIgnore(b[k..])
      case None => DecodeIgnore(b[1..])
  }

  /** `_truncate_utf8`: the kept text, and whether anything was cut. */
  function Truncate(s: string, limit: nat): (r: (string, bool)) {
    var encoded := Encode(s);
    if |encoded| <= limit then (s, false) else (DecodeIgnore(encoded[..limit]), true)
  }

  /** The longest prefix, in whole characters, of at most `limit` bytes. */
  function LongestFit(s: string, limit: nat): (r: string)
    ensures r <= s && ByteLen(r) <= limit
  {
    if s == [] || |EncodeChar(s[0])| > limit then []
    else
      var rest := LongestFit(s[1..], limit - |EncodeChar(s[0])|);
      assert ([s[0]] + rest)[1..] == rest;
      [s[0]] + rest
  }

  lemma Digits(n: nat)
    ensures n / 0x1000 == n / 0x40 / 0x40 && n / 0x4_0000 == n / 0x1000 / 0x40
    ensures n == n / 0x40 * 0x40 + n % 0x40
  {
  }

  lemma DecodeTwoEncoded(c: char, b: seq<Byte>)
    requires |EncodeChar(c)| == 2 && EncodeChar(c) <= b
    ensures DecodeFirst(b) == Some((c, 2))
  {
    assert b[0] == EncodeChar(c)[0] && b[1] == EncodeChar(c)[1];
  }

  lemma DecodeThreeEncoded(c: char, b: seq<Byte>)
    requires |EncodeChar(c)| == 3 && EncodeChar(c) <= b
    ensures DecodeFirst(b) == Some((c, 3))
  {
    var n := c as int;
    assert b[0] == EncodeChar(c)[0] && b[1] == EncodeChar(c)[1] && b[2] == EncodeChar(c)[2];
    Digits(n);
    Digits(n / 0x40);
    assert Join(b[0] - 0xE0, b[1]) == n / 0x40;
  }

  lemma DecodeFourEncoded(c: char, b: seq<Byte>)
    requires |EncodeChar(c)| == 4 && EncodeChar(c) <= b
    ensures DecodeFirst(b) == Some((c, 4))
  {
    var n := c as int;
    assert b[0] == EncodeChar(c)[0] && b[1] == EncodeChar(c)[1] && b[2] == EncodeChar(c)[2] && b[3] == EncodeChar(c)[3];
    Digits(n);
    Digits(n / 0x40);
    Digits(n / 0x1000);
    assert Join(b[0] - 0xF0, b[1]) == n / 0x1000;
    assert Join(n / 0x1000, b[2]) == n / 0x40;
  }

  lemma JoinDigits(high: nat, tail: Byte)
    requires Tail(tail)
    ensures Join(high, tail) / 0x40 == high && 0x80 + Join(high, tail) % 0x40 == tail
  {
  }

  lemma DecodedTwo(b: seq<Byte>)
    requires b != [] && 0x80 <= b[0] < 0xE0 && DecodeTwo(b).Some?
    ensures EncodeChar(DecodeTwo(b).value.0) == b[..2]
  {
    JoinDigits(b[0] - 0xC0, b[1]);
  }

  lemma DecodedThree(b: seq<Byte>)
    requires b != [] && 0xE0 <= b[0] < 0xF0 && DecodeThree(b).Some?
    ensures EncodeChar(DecodeThree(b).value.0) == b[..3]
  {
    JoinDigits(b[0] - 0xE0, b[1]);
    JoinDigits(Join(b[0] - 0xE0, b[1]), b[2]);
    Digits(Join(Join(b[0] - 0xE0, b[1]), b[2]));
  }

  lemma DecodedFour(b: seq<Byte>)
    requires b != [] && 0xF0 <= b[0] && DecodeFour(b).Some?
    ensures EncodeChar(DecodeFour(b).value.0) == b[..4]
  {
    var two := Join(b[0] - 0xF0, b[1]);
    var three := Join(two, b[2]);
    JoinDigits(b[0] - 0xF0, b[1]);
    JoinDigits(two, b[2]);
    JoinDigits(three, b[3]);
    Digits(Join(three, b[3]));
  }

  /** The decoder accepts only the encoder's own bytes: no overlong form and no surrogate. */
  lemma DecodedIsShortest(b: seq<Byte>)
    requires DecodeFirst(b).Some?
    ensures var (c, k) := DecodeFirst(b).value; b[..k] == EncodeChar(c)
  {
    if 0x80 <= b[0] < 0xE0 {
      DecodedTwo(b);
    } else if 0xE0 <= b[0] < 0xF0 {
      DecodedThree(b);
    } else if 0xF0 <= b[0] {
      DecodedFour(b);
    }
  }

  lemma DecodeEncodedChar(c: char, rest: seq<Byte>)
    ensures DecodeFirst(EncodeChar(c) + rest) == Some((c, |EncodeChar(c)|))
  {
    var b := EncodeChar(c) + rest;
    if |EncodeChar(c)| == 2 {
      DecodeTwoEncoded(c, b);
    } else if |EncodeChar(c)| == 3 {
      DecodeThreeEncoded(c, b);
    } else if |EncodeChar(c)| == 4 {
      DecodeFourEncoded(c, b);
    } else {
      assert b[0] == EncodeChar(c)[0];
    }
  }

  lemma {:induction false} TailsIgnored(b: seq<Byte>)
    requires forall i :: 0 <= i < |b| ==> Tail(b[i])
    ensures DecodeIgnore(b) == []
  {
    if b != [] {
      assert Tail(b[0]);
      TailsIgnored(b[1..]);
    }
  }

  /** The first bytes of a character, without its last, decode to nothing. */
  lemma CutCharIgnored(c: char, n: nat)
    requires n < |EncodeChar(c)|
    ensures DecodeIgnore(EncodeChar(c)[..n]) == []
  {
    var b := EncodeChar(c)[..n];
    if n > 0 {
      assert b[0] == EncodeChar(c)[0];
      assert DecodeFirst(b).None?;
      TailsIgnored(b[1..]);
    }
  }

  /** Cutting the encoding anywhere and decoding what is left gives the longest prefix that fits. */
  lemma {:induction false} CutDecodes(s: string, n: nat)
    requires n <= ByteLen(s)
    ensures DecodeIgnore(Encode(s)[..n]) == LongestFit(s, n)
  {
    if s != [] {
      var e, rest := EncodeChar(s[0]), Encode(s[1..]);
      if n < |e| {
        assert (e + rest)[..n] == e[..n];
        CutCharIgnored(s[0], n);
      } else {
        var left := rest[..n - |e|];
        assert (e + rest)[..n] == e + left;
        DecodeEncodedChar(s[0], left);
        assert (e + left)[|e|..] == left;
        CutDecodes(s[1..], n - |e|);
      }
    }
  }

  lemma {:induction false} FitsWhole(s: string, limit: nat)
    ensures LongestFit(s, limit) == s <==> ByteLen(s) <= limit
  {
    if s != [] {
      assert s == [s[0]] + s[1..];
      if |EncodeChar(s[0])| <= limit {
        FitsWhole(s[1..], limit - |EncodeChar(s[0])|);
      }
    }
  }

  /** No longer prefix fits. */
  lemma {:induction false} LongestFitMaximal(s: string, limit: nat, k: nat)
    requires k <= |s| && ByteLen(s[..k]) <= limit
    ensures k <= |LongestFit(s, limit)|
  {
    if k > 0 {
      assert s[..k][0] == s[0] && s[..k][1..] == s[1..][..k - 1];
      LongestFitMaximal(s[1..], limit - |EncodeChar(s[0])|, k - 1);
    }
  }

  /** Truncation keeps exactly the longest prefix that fits, and reports exactly a cut. */
  lemma TruncateExact(s: string, limit: nat)
    ensures Truncate(s, limit) == (LongestFit(s, limit), ByteLen(s) > limit)
  {
    FitsWhole(s, limit);
    if ByteLen(s) > limit {
      CutDecodes(s, limit);
    }
  }

  lemma RoundTrip(s: string)
    ensures DecodeIgnore(Encode(s)) == s
  {
    assert Encode(s)[..ByteLen(s)] == Encode(s);
    CutDecodes(s, ByteLen(s));
    FitsWhole(s, ByteLen(s));
  }

  /** Truncating twice is truncating to the smaller limit. */
  lemma {:induction false} FitTwice(s: string, a: nat, b: nat)
    ensures LongestFit(LongestFit(s, a), b) == LongestFit(s, if a < b then a else b)
  {
    if s != [] && |EncodeChar(s[0])| <= a {
      var m := |EncodeChar(s[0])|;
      var once := LongestFit(s, a);
      assert once[1..] == LongestFit(s[1..], a - m);
      if m <= b {
        FitTwice(s[1..], a - m, b - m);
      }
    }
  }
}
