/**
 * `is_valid_utf8` (utf8.hpp) against RFC 3629: the encoding of section 3, the
 * grammar of section 4, and the validator's loop. Each `char` is one octet.
 */
module Utf8 {

  type Scalar = c: int | 0 <= c < 0xD800 || 0xE000 <= c <= 0x10FFFF

  function Octet(n: nat): char
    requires n < 256
  {
    n as char
  }

  /** Section 3 of RFC 3629: the octets of one scalar value. */
  function Encode(c: Scalar): (s: string) {
    if c < 0x80 then [Octet(c)]
    else if c < 0x800 then [Octet(0xC0 + c / 64), Octet(0x80 + c % 64)]
    else if c < 0x10000 then [Octet(0xE0 + c / 4096), Octet(0x80 + c / 64 % 64), Octet(0x80 + c % 64)]
    else [Octet(0xF0 + c / 262144), Octet(0x80 + c / 4096 % 64), Octet(0x80 + c / 64 % 64), Octet(0x80 + c % 64)]
  }

  /** How many octets a scalar value takes, and that they carry its bits, the highest first. */
  lemma EncodeExactly(c: Scalar)
    ensures var s := Encode(c);
            && |s| == (if c <= 0x7F then 1 else if c <= 0x7FF then 2 else if c <= 0xFFFF then 3 else 4)
            && (forall i :: 0 < i < |s| ==> 0x80 <= s[i] as int <= 0xBF)
            && (|s| == 1 ==> s[0] as int == c)
            && (|s| == 2 ==> c == (s[0] as int - 0xC0) * 64 + (s[1] as int - 0x80))
            && (|s| == 3 ==> c == (s[0] as int - 0xE0) * 4096 + (s[1] as int - 0x80) * 64 + (s[2] as int - 0x80))
            && (|s| == 4 ==> c == (s[0] as int - 0xF0) * 262144 + (s[1] as int - 0x80) * 4096
                                  + (s[2] as int - 0x80) * 64 + (s[3] as int - 0x80))
  {
    assert c == c / 64 * 64 + c % 64;
    assert c / 64 == c / 64 / 64 * 64 + c / 64 % 64 && c / 64 / 64 == c / 4096;
    assert c / 4096 == c / 4096 / 64 * 64 + c / 4096 % 64 && c / 4096 / 64 == c / 262144;
  }

  function EncodeAll(scalars: seq<Scalar>): string {
    if scalars == [] then "" else Encode(scalars[0]) + EncodeAll(scalars[1..])
  }

  /** The text is the encoding of some sequence of Unicode scalar values. */
  ghost predicate ValidUtf8(text: string) {
    exists scalars: seq<Scalar> :: EncodeAll(scalars) == text
  }

  /** `s` begins with the octets of `c`. */
  predicate StartsWith(s: string, c: Scalar) {
    |Encode(c)| <= |s| && s[..|Encode(c)|] == Encode(c)
  }

  /** No encoding is the beginning of another. */
  lemma {:induction false} PrefixFree(s: string, c: Scalar, d: Scalar)
    requires StartsWith(s, c) && StartsWith(s, d)
    ensures c == d
  {
    EncodingIsGrammar(c);
    EncodingIsGrammar(d);
    assert s[0] == Encode(c)[0] == Encode(d)[0];
    LeadGivesLength(Encode(c));
    LeadGivesLength(Encode(d));
  }

  /** The decoding is unique. */
  lemma {:induction false} DecodingUnique(a: seq<Scalar>, b: seq<Scalar>)
    requires EncodeAll(a) == EncodeAll(b)
    ensures a == b
  {
    if a != [] && b != [] {
      var text := EncodeAll(a);
      assert text[..|Encode(a[0])|] == Encode(a[0]);
      assert text[..|Encode(b[0])|] == Encode(b[0]);
      PrefixFree(text, a[0], b[0]);
      assert EncodeAll(a[1..]) == text[|Encode(a[0])|..] == EncodeAll(b[1..]);
      DecodingUnique(a[1..], b[1..]);
    }
  }

  /** One encoded scalar at the front neither helps nor hurts the rest. */
  lemma StripFirst(text: string, c: Scalar)
    requires StartsWith(text, c)
    ensures ValidUtf8(text) <==> ValidUtf8(text[|Encode(c)|..])
  {
    var rest := text[|Encode(c)|..];
    if ValidUtf8(rest) {
      var scalars: seq<Scalar> :| EncodeAll(scalars) == rest;
      assert ([c] + scalars)[1..] == scalars;
      assert EncodeAll([c] + scalars) == text;
    }
    if ValidUtf8(text) {
      var scalars: seq<Scalar> :| EncodeAll(scalars) == text;
      FirstScalar(text, scalars);
      PrefixFree(text, c, scalars[0]);
      assert EncodeAll(scalars[1..]) == rest;
    }
  }

  lemma FirstScalar(text: string, scalars: seq<Scalar>)
    requires EncodeAll(scalars) == text && text != ""
    ensures scalars != [] && StartsWith(text, scalars[0])
  {
  }

  /** Section 4 of RFC 3629. */
  predicate Tail(c: char) { 0x80 <= c as int <= 0xBF }

  predicate Utf8Char(s: string) {
    if |s| == 1 then s[0] as int <= 0x7F
    else if |s| == 2 then 0xC2 <= s[0] as int <= 0xDF && Tail(s[1])
    else if |s| == 3 then
      && Tail(s[1]) && Tail(s[2])
      && (|| (s[0] as int == 0xE0 && 0xA0 <= s[1] as int)
          || 0xE1 <= s[0] as int <= 0xEC
          || (s[0] as int == 0xED && s[1] as int <= 0x9F)
          || 0xEE <= s[0] as int <= 0xEF)
    else if |s| == 4 then
      && Tail(s[1]) && Tail(s[2]) && Tail(s[3])
      && (|| (s[0] as int == 0xF0 && 0x90 <= s[1] as int)
          || 0xF1 <= s[0] as int <= 0xF3
          || (s[0] as int == 0xF4 && s[1] as int <= 0x8F))
    else false
  }

  predicate Utf8Octets(s: string) {
    s == "" || exists k :: 1 <= k <= |s| && Utf8Char(s[..k]) && Utf8Octets(s[k..])
  }

  /** The value an octet sequence of the grammar carries. */
  function Value(s: string): int
    requires 1 <= |s| <= 4
  {
    if |s| == 1 then s[0] as int
    else if |s| == 2 then (s[0] as int - 0xC0) * 64 + (s[1] as int - 0x80)
    else if |s| == 3 then (s[0] as int - 0xE0) * 4096 + (s[1] as int - 0x80) * 64 + (s[2] as int - 0x80)
    else (s[0] as int - 0xF0) * 262144 + (s[1] as int - 0x80) * 4096 + (s[2] as int - 0x80) * 64 + (s[3] as int - 0x80)
  }

  lemma Digits(c: nat, high: nat, low: nat)
    requires c == high * 64 + low && low < 64
    ensures c / 64 == high && c % 64 == low
  {
  }

  lemma ThreeDigits(c: nat)
    ensures c / 64 / 64 == c / 4096 && c / 4096 / 64 == c / 262144
    ensures c == c / 4096 * 4096 + c / 64 % 64 * 64 + c % 64
    ensures c == c / 262144 * 262144 + c / 4096 % 64 * 4096 + c / 64 % 64 * 64 + c % 64
  {
    assert c == c / 64 * 64 + c % 64;
    var d := c / 64;
    assert d == d / 64 * 64 + d % 64;
    var e := d / 64;
    assert e == e / 64 * 64 + e % 64;
    assert c / 4096 == e;
    assert c / 262144 == e / 64;
  }

  lemma GrammarIsEncoding(s: string)
    requires Utf8Char(s)
    ensures var c := Value(s); (c < 0xD800 || 0xE000 <= c <= 0x10FFFF) && Encode(c) == s
  {
    var c := Value(s);
    ThreeDigits(c);
    if |s| == 2 {
      Digits(c, s[0] as int - 0xC0, s[1] as int - 0x80);
    } else if |s| == 3 {
      var high := (s[0] as int - 0xE0) * 64 + (s[1] as int - 0x80);
      Digits(high, s[0] as int - 0xE0, s[1] as int - 0x80);
      Digits(c, high, s[2] as int - 0x80);
    } else if |s| == 4 {
      var top := (s[0] as int - 0xF0) * 64 + (s[1] as int - 0x80);
      var high := top * 64 + (s[2] as int - 0x80);
      Digits(top, s[0] as int - 0xF0, s[1] as int - 0x80);
      Digits(high, top, s[2] as int - 0x80);
      Digits(c, high, s[3] as int - 0x80);
    }
  }

  lemma EncodingIsGrammar(c: Scalar)
    ensures Utf8Char(Encode(c)) && Value(Encode(c)) == c
  {
    ThreeDigits(c);
    if c < 0x80 {
    } else if c < 0x800 {
      assert c == c / 64 * 64 + c % 64;
    } else if c < 0x10000 {
      LeadOfThree(c);
    } else {
      LeadOfFour(c);
    }
  }

  lemma LeadOfThree(c: Scalar)
    requires 0x800 <= c < 0x10000
    ensures Utf8Char(Encode(c))
  {
    var lead, second := c / 4096, c / 64 % 64;
    ThreeDigits(c);
    assert 0 <= lead <= 15;
    assert lead == 0 ==> second >= 0x20;
    assert lead == 13 ==> second <= 0x1F;
  }

  lemma LeadOfFour(c: Scalar)
    requires 0x10000 <= c
    ensures Utf8Char(Encode(c))
  {
    var lead, second := c / 262144, c / 4096 % 64;
    ThreeDigits(c);
    assert 0 <= lead <= 4;
    assert lead == 0 ==> second >= 0x10;
    assert lead == 4 ==> second <= 0x0F;
  }

  /** The first octet alone fixes how many octets there are. */
  lemma LeadGivesLength(s: string)
    requires Utf8Char(s)
    ensures |s| == LengthFromLead(s[0] as int)
  {
  }

  /** The grammar of section 4 describes exactly the encodings of section 3. */
  lemma {:induction false} GrammarAgrees(text: string)
    ensures Utf8Octets(text) <==> ValidUtf8(text)
    decreases |text|
  {
    if text == "" {
      assert EncodeAll([]) == text;
    } else {
      if Utf8Octets(text) {
        var k :| 1 <= k <= |text| && Utf8Char(text[..k]) && Utf8Octets(text[k..]);
        GrammarIsEncoding(text[..k]);
        GrammarAgrees(text[k..]);
        StripFirst(text, Value(text[..k]));
      }
      if ValidUtf8(text) {
        var scalars: seq<Scalar> :| EncodeAll(scalars) == text;
        FirstScalar(text, scalars);
        EncodingIsGrammar(scalars[0]);
        var k := |Encode(scalars[0])|;
        StripFirst(text, scalars[0]);
        GrammarAgrees(text[k..]);
        assert Utf8Char(text[..k]) && Utf8Octets(text[k..]);
      }
    }
  }

  /**
   * What one turn of the validator's loop must find at `text`: the grammar's
   * octets of length `n`, or nothing that any scalar could begin with.
   */
  lemma TurnDecides(text: string, n: nat)
    requires 1 <= n <= 4 && text != ""
    requires n == LengthFromLead(text[0] as int)
    ensures n <= |text| && Utf8Char(text[..n]) ==>
              (ValidUtf8(text) <==> ValidUtf8(text[n..]))
    ensures !(n <= |text| && Utf8Char(text[..n])) ==> !ValidUtf8(text)
  {
    if n <= |text| && Utf8Char(text[..n]) {
      GrammarIsEncoding(text[..n]);
      StripFirst(text, Value(text[..n]));
    } else if ValidUtf8(text) {
      var scalars: seq<Scalar> :| EncodeAll(scalars) == text;
      FirstScalar(text, scalars);
      EncodingIsGrammar(scalars[0]);
      LeadGivesLength(Encode(scalars[0]));
    }
  }

  lemma NoLead(text: string)
    requires text != "" && LengthFromLead(text[0] as int) == 0
    ensures !ValidUtf8(text)
  {
    if ValidUtf8(text) {
      var scalars: seq<Scalar> :| EncodeAll(scalars) == text;
      FirstScalar(text, scalars);
      EncodingIsGrammar(scalars[0]);
      LeadGivesLength(Encode(scalars[0]));
    }
  }

  function LengthFromLead(first: int): nat {
    if first <= 0x7F then 1
    else if 0xC2 <= first <= 0xDF then 2
    else if 0xE0 <= first <= 0xEF then 3
    else if 0xF0 <= first <= 0xF4 then 4
    else 0
  }

  /**
   * The validator. `next & 0xC0 == 0x80` is `next / 64 == 2`, `next & 0x3F` is
   * `next % 64`, and a shift by six is a product with 64, all below 2^32.
   */
  method IsValidUtf8(text: string) returns (valid: bool)
    ensures valid <==> ValidUtf8(text)
  {
    var index := 0;
    while index < |text|
      invariant 0 <= index <= |text|
      invariant ValidUtf8(text) <==> ValidUtf8(text[index..])
    {
      ghost var rest := text[index..];
      var first := text[index] as int;
      var continuationCount, codePoint := 0, 0;
      if first <= 0x7F {
        codePoint := first;
      } else if 0xC2 <= first <= 0xDF {
        continuationCount, codePoint := 1, first % 32;
      } else if 0xE0 <= first <= 0xEF {
        continuationCount, codePoint := 2, first % 16;
      } else if 0xF0 <= first <= 0xF4 {
        continuationCount, codePoint := 3, first % 8;
      } else {
        NoLead(rest);
        return false;
      }
      TurnDecides(rest, continuationCount + 1);
      if index + continuationCount >= |text| {
        return false;
      }
      var offset := 1;
      while offset <= continuationCount
        invariant 1 <= offset <= continuationCount + 1
        invariant forall i :: 1 <= i < offset ==> Tail(rest[i])
        invariant codePoint == Gathered(rest[..continuationCount + 1], offset)
      {
        var next := text[index + offset] as int;
        if next / 64 != 2 {
          assert !Tail(rest[offset]);
          return false;
        }
        codePoint := codePoint * 64 + next % 64;
        offset := offset + 1;
      }
      GatheredIsGrammar(rest[..continuationCount + 1], codePoint);
      if || (continuationCount == 2 && codePoint < 0x800)
         || (continuationCount == 3 && codePoint < 0x10000)
         || codePoint > 0x10FFFF
         || 0xD800 <= codePoint <= 0xDFFF
      {
        return false;
      }
      assert text[index + continuationCount + 1..] == rest[continuationCount + 1..];
      index := index + continuationCount + 1;
    }
    assert text[index..] == "" == EncodeAll([]);
    return true;
  }

  /** The code point gathered from the lead octet and `taken - 1` continuation octets. */
  ghost function Gathered(s: string, taken: nat): int
    requires 1 <= taken <= |s| <= 4
  {
    if taken == 1 then
      var first := s[0] as int;
      if |s| == 1 then first
      else if |s| == 2 then first % 32
      else if |s| == 3 then first % 16
      else first % 8
    else Gathered(s, taken - 1) * 64 + s[taken - 1] as int % 64
  }

  /** The validator's final range test picks out the grammar's octets. */
  lemma GatheredIsGrammar(s: string, codePoint: int)
    requires 1 <= |s| <= 4 && |s| == LengthFromLead(s[0] as int)
    requires forall i :: 1 <= i < |s| ==> Tail(s[i])
    requires codePoint == Gathered(s, |s|)
    ensures Utf8Char(s) <==>
              !(|| (|s| == 3 && codePoint < 0x800)
                || (|s| == 4 && codePoint < 0x10000)
                || codePoint > 0x10FFFF
                || 0xD800 <= codePoint <= 0xDFFF)
  {
    if |s| == 3 {
      GatheredThree(s, codePoint);
    } else if |s| == 4 {
      GatheredFour(s, codePoint);
    } else if |s| == 2 {
      Continuation(s[1]);
      assert s[0] as int % 32 == s[0] as int - 0xC0;
    }
  }

  lemma Continuation(c: char)
    requires Tail(c)
    ensures c as int % 64 == c as int - 0x80
  {
  }

  lemma GatheredThree(s: string, codePoint: int)
    requires |s| == 3 && 0xE0 <= s[0] as int <= 0xEF && Tail(s[1]) && Tail(s[2])
    requires codePoint == Gathered(s, 3)
    ensures codePoint == Value(s)
  {
    Continuation(s[1]);
    Continuation(s[2]);
    assert Gathered(s, 2) == Gathered(s, 1) * 64 + s[1] as int % 64;
    assert s[0] as int % 16 == s[0] as int - 0xE0;
  }

  lemma GatheredFour(s: string, codePoint: int)
    requires |s| == 4 && 0xF0 <= s[0] as int <= 0xF4 && Tail(s[1]) && Tail(s[2]) && Tail(s[3])
    requires codePoint == Gathered(s, 4)
    ensures codePoint == Value(s)
  {
    Continuation(s[1]);
    Continuation(s[2]);
    Continuation(s[3]);
    assert Gathered(s, 2) == Gathered(s, 1) * 64 + s[1] as int % 64;
    assert Gathered(s, 3) == Gathered(s, 2) * 64 + s[2] as int % 64;
    assert s[0] as int % 8 == s[0] as int - 0xF0;
  }
}
