/** Well-formed UTF-8, table 3-7 of the Unicode Standard, as `str::from_utf8` accepts it. */
module Utf8 {
  import opened Base

  predicate IsContinuation(c: byte) { 128 <= c < 192 }

  /** How many bytes the character at the front takes; 0 when the front is malformed. */
  function CharLength(b: Bytes): (n: nat)
    ensures n <= 4 && n <= |b|
  {
    if b == [] then 0
    else if b[0] < 0x80 then 1
    else if 0xC2 <= b[0] <= 0xDF then if |b| >= 2 && IsContinuation(b[1]) then 2 else 0
    else if 0xE0 <= b[0] <= 0xEF then
      var low := if b[0] == 0xE0 then 0xA0 else 0x80;
      var high := if b[0] == 0xED then 0x9F else 0xBF;
      if |b| >= 3 && low <= b[1] <= high && IsContinuation(b[2]) then 3 else 0
    else if 0xF0 <= b[0] <= 0xF4 then
      var low := if b[0] == 0xF0 then 0x90 else 0x80;
      var high := if b[0] == 0xF4 then 0x8F else 0xBF;
      if |b| >= 4 && low <= b[1] <= high && IsContinuation(b[2]) && IsContinuation(b[3]) then 4 else 0
    else 0
  }

  predicate ValidUtf8(b: Bytes) {
    b == [] || (CharLength(b) > 0 && ValidUtf8(b[CharLength(b)..]))
  }

  /** The character at the front does not depend on what follows it. */
  lemma CharLengthStable(a: Bytes, b: Bytes)
    requires CharLength(a) > 0
    ensures CharLength(a + b) == CharLength(a)
  {}

  /** Well-formed texts may be joined. */
  lemma {:induction false} ValidJoin(a: Bytes, b: Bytes)
    requires ValidUtf8(a) && ValidUtf8(b)
    ensures ValidUtf8(a + b)
    decreases |a|
  {
    hide CharLength;
    if a == [] {
      assert a + b == b;
    } else {
      var n := CharLength(a);
      CharLengthStable(a, b);
      ValidJoin(a[n..], b);
      assert (a + b)[n..] == a[n..] + b;
    }
  }

  /** Only the first byte of a character is below 128. */
  lemma AsciiStartsCharacter(s: Bytes, n: nat)
    requires 0 < n < CharLength(s)
    ensures s[n] >= 128
  {}

  /** A text may be cut in front of an ASCII character. */
  lemma {:induction false} ValidCut(s: Bytes, n: nat)
    requires ValidUtf8(s) && n < |s| && s[n] < 128
    ensures ValidUtf8(s[..n]) && ValidUtf8(s[n..])
    decreases |s|
  {
    hide CharLength;
    if n == 0 {
      assert s[..0] == [] && s[0..] == s;
    } else {
      var k := CharLength(s);
      if n < k {
        AsciiStartsCharacter(s, n);
      } else {
        ValidCut(s[k..], n - k);
        WholeCharacter(s);
        CharacterAlone(s);
        assert s[k..][n - k..] == s[n..] && s[..n] == s[..k] + s[k..][..n - k];
        ValidJoin(s[..k], s[k..][..n - k]);
      }
    }
  }

  lemma WholeCharacter(s: Bytes)
    requires CharLength(s) > 0
    ensures CharLength(s[..CharLength(s)]) == CharLength(s)
  {}

  lemma CharacterAlone(s: Bytes)
    requires CharLength(s) > 0 && CharLength(s[..CharLength(s)]) == CharLength(s)
    ensures ValidUtf8(s[..CharLength(s)])
  {
    var c := s[..CharLength(s)];
    assert c[|c|..] == [];
  }

  // ----- the texts these are -----

  /** Unicode scalar values: code points that are not surrogates. */
  predicate IsScalar(c: int) {
    0 <= c < 0xD800 || 0xE000 <= c < 0x110000
  }

  /** Table 3-6: one to four bytes a character. */
  function EncodeChar(c: int): Bytes
    requires IsScalar(c)
  {
    if c < 0x80 then [c]
    else if c < 0x800 then [0xC0 + c / 64, 0x80 + c % 64]
    else if c < 0x10000 then [0xE0 + c / 4096, 0x80 + c / 64 % 64, 0x80 + c % 64]
    else [0xF0 + c / 262144, 0x80 + c / 4096 % 64, 0x80 + c / 64 % 64, 0x80 + c % 64]
  }

  ghost predicate AllScalars(text: seq<int>) {
    forall i :: 0 <= i < |text| ==> IsScalar(text[i])
  }

  function EncodeText(text: seq<int>): Bytes
    requires forall i :: 0 <= i < |text| ==> IsScalar(text[i])
  {
    if text == [] then [] else EncodeChar(text[0]) + EncodeText(text[1..])
  }

  lemma EncodedChar(c: int, rest: Bytes)
    requires IsScalar(c)
    ensures CharLength(EncodeChar(c) + rest) == |EncodeChar(c)| > 0
  {}

  lemma {:induction false} EncodedTextIsValid(text: seq<int>)
    requires AllScalars(text)
    ensures ValidUtf8(EncodeText(text))
    decreases |text|
  {
    hide CharLength, EncodeChar;
    if text != [] {
      var first, rest := EncodeChar(text[0]), EncodeText(text[1..]);
      EncodedTextIsValid(text[1..]);
      EncodedChar(text[0], rest);
      assert (first + rest)[|first|..] == rest;
    }
  }

  /** Six bits a digit. */
  lemma Digits64(a: int, b: int, c: int, d: int)
    requires 0 <= a && 0 <= b < 64 && 0 <= c < 64 && 0 <= d < 64
    ensures var n := a * 262144 + b * 4096 + c * 64 + d;
            n / 262144 == a && n / 4096 % 64 == b && n / 64 % 64 == c && n % 64 == d
  {
    var n := a * 262144 + b * 4096 + c * 64 + d;
    assert n / 64 == a * 4096 + b * 64 + c;
    assert n / 4096 == a * 64 + b;
  }

  lemma Decoded2(lead: int, second: int)
    requires 0xC2 <= lead <= 0xDF && 0 <= second < 64
    ensures var c := (lead - 0xC0) * 64 + second; IsScalar(c) && EncodeChar(c) == [lead, 0x80 + second]
  {
    Digits64(0, 0, lead - 0xC0, second);
  }

  lemma Decoded3(lead: int, second: int, third: int)
    requires 0xE0 <= lead <= 0xEF && 0 <= second < 64 && 0 <= third < 64
    requires (lead == 0xE0 ==> second >= 0x20) && (lead == 0xED ==> second < 0x20)
    ensures var c := (lead - 0xE0) * 4096 + second * 64 + third;
            IsScalar(c) && EncodeChar(c) == [lead, 0x80 + second, 0x80 + third]
  {
    Digits64(0, lead - 0xE0, second, third);
  }

  lemma Decoded4(lead: int, second: int, third: int, fourth: int)
    requires 0xF0 <= lead <= 0xF4 && 0 <= second < 64 && 0 <= third < 64 && 0 <= fourth < 64
    requires (lead == 0xF0 ==> second >= 0x10) && (lead == 0xF4 ==> second < 0x10)
    ensures var c := (lead - 0xF0) * 262144 + second * 4096 + third * 64 + fourth;
            IsScalar(c) && EncodeChar(c) == [lead, 0x80 + second, 0x80 + third, 0x80 + fourth]
  {
    Digits64(lead - 0xF0, second, third, fourth);
  }

  lemma DecodedChar(b: Bytes) returns (c: int)
    requires CharLength(b) > 0
    ensures IsScalar(c) && EncodeChar(c) == b[..CharLength(b)]
  {
    var n := CharLength(b);
    var lead: int := b[0];
    if n == 1 {
      c := lead;
    } else {
      hide EncodeChar;
      var second: int := b[1] - 0x80;
      if n == 2 {
        Decoded2(lead, second);
        c := (lead - 0xC0) * 64 + second;
        assert b[..n] == [b[0], b[1]];
      } else {
        var third: int := b[2] - 0x80;
        if n == 3 {
          Decoded3(lead, second, third);
          c := (lead - 0xE0) * 4096 + second * 64 + third;
          assert b[..n] == [b[0], b[1], b[2]];
        } else {
          var fourth: int := b[3] - 0x80;
          Decoded4(lead, second, third, fourth);
          c := (lead - 0xF0) * 262144 + second * 4096 + third * 64 + fourth;
          assert b[..n] == [b[0], b[1], b[2], b[3]];
        }
      }
    }
  }

  lemma {:induction false} ValidIsEncodedText(b: Bytes) returns (text: seq<int>)
    requires ValidUtf8(b)
    ensures AllScalars(text) && EncodeText(text) == b
    decreases |b|
  {
    hide CharLength, EncodeChar;
    if b == [] {
      text := [];
    } else {
      var n := CharLength(b);
      var c := DecodedChar(b);
      var rest := ValidIsEncodedText(b[n..]);
      text := [c] + rest;
      assert text[1..] == rest && b == b[..n] + b[n..];
    }
  }

  /** Well-formed bytes are exactly the encodings of texts. */
  lemma ValidExactly(b: Bytes)
    ensures ValidUtf8(b) <==> exists text :: AllScalars(text) && EncodeText(text) == b
  {
    if ValidUtf8(b) {
      var text := ValidIsEncodedText(b);
    }
    forall text | AllScalars(text) && EncodeText(text) == b ensures ValidUtf8(b) {
      EncodedTextIsValid(text);
    }
  }
}
