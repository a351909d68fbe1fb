/** encodeURIComponent and decodeURIComponent: percent-encoding (RFC 3986, section 2.1) of UTF-8. A
    string is a sequence of Unicode scalar values, so every string is well formed. */
module PercentCoding {
  import opened Prelude

  predicate IsAlphanumeric(c: char) {
    'A' <= c <= 'Z' || 'a' <= c <= 'z' || '0' <= c <= '9'
  }

  /** The characters encodeURIComponent leaves alone. */
  predicate IsPlain(c: char) {
    || IsAlphanumeric(c)
    || c == '-' || c == '_' || c == '.' || c == '!' || c == '~' || c == '*' || c == '\'' || c == '(' || c == ')'
  }

  function HexDigit(d: nat): (c: char)
    requires d < 16
    ensures IsHex(c) && HexValue(c) == d && IsAlphanumeric(c)
  {
    if d < 10 then '0' + d as char else 'A' + (d - 10) as char
  }

  predicate IsHex(c: char) {
    '0' <= c <= '9' || 'A' <= c <= 'F' || 'a' <= c <= 'f'
  }

  function HexValue(c: char): (d: nat)
    requires IsHex(c)
    ensures d < 16
  {
    if c <= '9' then c as nat - '0' as nat
    else if c <= 'F' then c as nat - 'A' as nat + 10
    else c as nat - 'a' as nat + 10
  }

  function Percent(b: nat): string
    requires b < 256
  {
    ['%', HexDigit(b / 16), HexDigit(b % 16)]
  }

  /** A character outside the plain set as its UTF-8 bytes. */
  function EncodeBytes(n: nat): string
    requires n < 0x11_0000
  {
    if n < 0x80 then Percent(n)
    else if n < 0x800 then Percent(0xC0 + n / 64) + Percent(0x80 + n % 64)
    else if n < 0x1_0000 then Percent(0xE0 + n / 4096) + Percent(0x80 + n / 64 % 64) + Percent(0x80 + n % 64)
    else Percent(0xF0 + n / 262144) + Percent(0x80 + n / 4096 % 64) + Percent(0x80 + n / 64 % 64) + Percent(0x80 + n % 64)
  }

  function EncodeChar(c: char): string {
    if IsPlain(c) then [c] else EncodeBytes(c as nat)
  }

  /** The pieces of all characters, one after the other. */
  function ConcatMap(f: char -> string, s: string): string {
    if s == "" then "" else f(s[0]) + ConcatMap(f, s[1..])
  }

  /** encodeURIComponent */
  function Encode(s: string): string {
    ConcatMap(EncodeChar, s)
  }

  /** The byte written as %XX at position i. */
  function ByteAt(s: string, i: nat): (b: Option<nat>)
    ensures b.Some? ==> b.value < 256 && i + 3 <= |s|
  {
    if i + 3 <= |s| && s[i] == '%' && IsHex(s[i + 1]) && IsHex(s[i + 2])
    then Some(16 * HexValue(s[i + 1]) + HexValue(s[i + 2]))
    else None
  }

  /** `need` more bytes of the form 10xxxxxx, from position i on, behind the bits read so far. */
  function Continuation(s: string, i: nat, need: nat, bits: nat): (n: Option<nat>)
    ensures n.Some? ==> i + 3 * need <= |s| || need == 0
    decreases need
  {
    if need == 0 then Some(bits)
    else
      var b := ByteAt(s, i);
      if b.Some? && 0x80 <= b.value < 0xC0 then Continuation(s, i + 3, need - 1, 64 * bits + b.value - 0x80) else None
  }

  /** A scalar value, in the shortest form. */
  predicate IsScalar(n: nat, need: nat) {
    && (n < 0xD800 || 0xE000 <= n < 0x11_0000)
    && n >= (if need == 1 then 0x80 else if need == 2 then 0x800 else 0x1_0000)
  }

  /** The first character of s and how much of s stands for it; None is a URIError. */
  function DecodeChar(s: string): (r: Option<(char, nat)>)
    requires s != ""
    ensures r.Some? ==> 1 <= r.value.1 <= |s|
  {
    if s[0] != '%' then Some((s[0], 1))
    else
      var b := ByteAt(s, 0);
      if b.None? then None
      else if b.value < 0x80 then Some((b.value as char, 3))
      else if b.value < 0xC0 || b.value >= 0xF8 then None
      else
        var need := if b.value < 0xE0 then 1 else if b.value < 0xF0 then 2 else 3;
        var bits := b.value - (if need == 1 then 0xC0 else if need == 2 then 0xE0 else 0xF0);
        var n := Continuation(s, 3, need, bits);
        if n.Some? && IsScalar(n.value, need) then Some((n.value as char, 3 + 3 * need)) else None
  }

  /** decodeURIComponent */
  function Decode(s: string): Option<string>
    decreases |s|
  {
    if s == "" then Some("")
    else
      var first := DecodeChar(s);
      if first.None? then None
      else
        var rest := Decode(s[first.value.1..]);
        if rest.None? then None else Some([first.value.0] + rest.value)
  }

  lemma ByteAtPercent(u: string, b: nat, v: string)
    requires b < 256
    ensures ByteAt(u + Percent(b) + v, |u|) == Some(b)
  {
    var s := u + Percent(b) + v;
    assert s[|u|] == '%' && s[|u| + 1] == HexDigit(b / 16) && s[|u| + 2] == HexDigit(b % 16);
  }

  lemma DecodeTwo(n: nat, rest: string)
    requires 0x80 <= n < 0x800
    ensures DecodeChar(EncodeBytes(n) + rest) == Some((n as char, 6))
  {
    var s, a, b := EncodeBytes(n) + rest, 0xC0 + n / 64, 0x80 + n % 64;
    assert s == "" + Percent(a) + (Percent(b) + rest);
    ByteAtPercent("", a, Percent(b) + rest);
    ByteAtPercent(Percent(a), b, rest);
    assert Continuation(s, 6, 0, n) == Some(n);
    assert Continuation(s, 3, 1, n / 64) == Some(n);
  }

  /** The first three bytes of a text, one after the other. */
  lemma ThreeBytes(a: nat, b: nat, d: nat, rest: string)
    requires a < 256 && b < 256 && d < 256
    ensures var s := Percent(a) + Percent(b) + Percent(d) + rest;
            ByteAt(s, 0) == Some(a) && ByteAt(s, 3) == Some(b) && ByteAt(s, 6) == Some(d)
  {
    assert Percent(a) + Percent(b) + Percent(d) + rest == "" + Percent(a) + (Percent(b) + Percent(d) + rest);
    assert Percent(a) + Percent(b) + Percent(d) + rest == Percent(a) + Percent(b) + (Percent(d) + rest);
    assert Percent(a) + Percent(b) + Percent(d) + rest == (Percent(a) + Percent(b)) + Percent(d) + rest;
    ByteAtPercent("", a, Percent(b) + Percent(d) + rest);
    ByteAtPercent(Percent(a), b, Percent(d) + rest);
    ByteAtPercent(Percent(a) + Percent(b), d, rest);
  }

  lemma ThreeContinue(s: string, n: nat)
    requires ByteAt(s, 3) == Some(0x80 + n / 64 % 64) && ByteAt(s, 6) == Some(0x80 + n % 64)
    ensures Continuation(s, 3, 2, n / 4096) == Some(n)
  {
    SixBits(n);
    ContinuationStep(s, 3, 2, n / 4096, n / 64 % 64);
    ContinuationStep(s, 6, 1, n / 64, n % 64);
  }

  lemma DecodeThree(n: nat, rest: string)
    requires 0x800 <= n < 0x1_0000 && !(0xD800 <= n < 0xE000)
    ensures DecodeChar(EncodeBytes(n) + rest) == Some((n as char, 9))
  {
    ThreeBytes(0xE0 + n / 4096, 0x80 + n / 64 % 64, 0x80 + n % 64, rest);
    ThreeContinue(EncodeBytes(n) + rest, n);
  }

  /** The four bytes of a text, one after the other. */
  lemma FourBytes(a: nat, b: nat, d: nat, e: nat, rest: string)
    requires a < 256 && b < 256 && d < 256 && e < 256
    ensures var s := Percent(a) + Percent(b) + Percent(d) + Percent(e) + rest;
            ByteAt(s, 0) == Some(a) && ByteAt(s, 3) == Some(b) && ByteAt(s, 6) == Some(d) && ByteAt(s, 9) == Some(e)
  {
    var s := Percent(a) + Percent(b) + Percent(d) + Percent(e) + rest;
    assert s[0..3] == Percent(a) && s[3..6] == Percent(b) && s[6..9] == Percent(d) && s[9..12] == Percent(e);
    forall i, x | (i == 0 && x == a) || (i == 3 && x == b) || (i == 6 && x == d) || (i == 9 && x == e)
      ensures ByteAt(s, i) == Some(x)
    {
      assert s[i..i + 3] == Percent(x);
      assert s[i] == Percent(x)[0] && s[i + 1] == Percent(x)[1] && s[i + 2] == Percent(x)[2];
    }
  }

  lemma ContinuationStep(s: string, i: nat, need: nat, bits: nat, x: nat)
    requires need > 0 && x < 64 && ByteAt(s, i) == Some(0x80 + x)
    ensures Continuation(s, i, need, bits) == Continuation(s, i + 3, need - 1, 64 * bits + x)
  {
  }

  lemma SixBits(n: nat)
    ensures 64 * (n / 64) + n % 64 == n
    ensures 64 * (n / 4096) + n / 64 % 64 == n / 64
    ensures 64 * (n / 262144) + n / 4096 % 64 == n / 4096
  {
  }

  lemma FourContinue(s: string, n: nat)
    requires ByteAt(s, 3) == Some(0x80 + n / 4096 % 64) && ByteAt(s, 6) == Some(0x80 + n / 64 % 64)
    requires ByteAt(s, 9) == Some(0x80 + n % 64)
    ensures Continuation(s, 3, 3, n / 262144) == Some(n)
  {
    SixBits(n);
    ContinuationStep(s, 3, 3, n / 262144, n / 4096 % 64);
    ContinuationStep(s, 6, 2, n / 4096, n / 64 % 64);
    ContinuationStep(s, 9, 1, n / 64, n % 64);
  }

  lemma DecodeFour(n: nat, rest: string)
    requires 0x1_0000 <= n < 0x11_0000
    ensures DecodeChar(EncodeBytes(n) + rest) == Some((n as char, 12))
  {
    var s := EncodeBytes(n) + rest;
    FourBytes(0xF0 + n / 262144, 0x80 + n / 4096 % 64, 0x80 + n / 64 % 64, 0x80 + n % 64, rest);
    FourContinue(s, n);
  }

  lemma DecodeEncodedChar(c: char, rest: string)
    ensures EncodeChar(c) != "" && DecodeChar(EncodeChar(c) + rest) == Some((c, |EncodeChar(c)|))
  {
    var n := c as nat;
    if IsPlain(c) {
      assert c != '%';
    } else if n < 0x80 {
      assert EncodeBytes(n) + rest == "" + Percent(n) + rest;
      ByteAtPercent("", n, rest);
    } else if n < 0x800 {
      DecodeTwo(n, rest);
    } else if n < 0x1_0000 {
      DecodeThree(n, rest);
    } else {
      DecodeFour(n, rest);
    }
  }

  /** Decoding undoes encoding, for every string. */
  lemma {:induction false} DecodeEncode(s: string)
    ensures Decode(Encode(s)) == Some(s)
    ensures s != "" ==> Encode(s) != ""
  {
    if s == "" {
    } else {
      DecodeEncode(s[1..]);
      DecodeEncodedChar(s[0], Encode(s[1..]));
      assert Encode(s)[|EncodeChar(s[0])|..] == Encode(s[1..]);
      assert s == [s[0]] + s[1..];
    }
  }

  lemma {:induction false} ConcatMapConcat(f: char -> string, a: string, b: string)
    ensures ConcatMap(f, a + b) == ConcatMap(f, a) + ConcatMap(f, b)
  {
    if a == "" {
      assert a + b == b;
    } else {
      ConcatMapConcat(f, a[1..], b);
      assert (a + b)[1..] == a[1..] + b;
      Associative(f(a[0]), ConcatMap(f, a[1..]), ConcatMap(f, b));
    }
  }

  lemma EncodeConcat(a: string, b: string)
    ensures Encode(a + b) == Encode(a) + Encode(b)
  {
    ConcatMapConcat(EncodeChar, a, b);
  }

  /** What an encoded string is made of. */
  predicate IsCoded(c: char) {
    IsPlain(c) || c == '%'
  }

  predicate CodedText(s: string) {
    forall i :: 0 <= i < |s| ==> IsCoded(s[i])
  }

  predicate Unquoted(s: string) {
    forall i :: 0 <= i < |s| ==> s[i] != '\''
  }

  lemma PercentAlphabet(b: nat)
    requires b < 256
    ensures CodedText(Percent(b)) && Unquoted(Percent(b))
  {
  }

  lemma BytesAlphabet(n: nat)
    requires n < 0x11_0000
    ensures CodedText(EncodeBytes(n)) && Unquoted(EncodeBytes(n))
  {
    if n < 0x80 {
      PercentAlphabet(n);
    } else {
      PercentAlphabet(0x80 + n % 64);
      PercentAlphabet(0x80 + n / 64 % 64);
      PercentAlphabet(0x80 + n / 4096 % 64);
      var last := Percent(0x80 + n % 64);
      var third := Percent(0x80 + n / 64 % 64);
      if n < 0x800 {
        PercentAlphabet(0xC0 + n / 64);
        CodedConcat(Percent(0xC0 + n / 64), last);
      } else if n < 0x1_0000 {
        PercentAlphabet(0xE0 + n / 4096);
        CodedConcat(Percent(0xE0 + n / 4096), third);
        CodedConcat(Percent(0xE0 + n / 4096) + third, last);
      } else {
        PercentAlphabet(0xF0 + n / 262144);
        var second := Percent(0x80 + n / 4096 % 64);
        CodedConcat(Percent(0xF0 + n / 262144), second);
        CodedConcat(Percent(0xF0 + n / 262144) + second, third);
        CodedConcat(Percent(0xF0 + n / 262144) + second + third, last);
      }
    }
  }

  lemma CharAlphabet(c: char)
    ensures CodedText(EncodeChar(c)) && (c != '\'' ==> Unquoted(EncodeChar(c)))
  {
    if !IsPlain(c) {
      BytesAlphabet(c as nat);
    }
  }

  lemma {:induction false} EncodeAlphabet(s: string)
    ensures CodedText(Encode(s))
    ensures Unquoted(s) ==> Unquoted(Encode(s))
  {
    if s == "" {
    } else {
      EncodeAlphabet(s[1..]);
      CharAlphabet(s[0]);
      CodedConcat(EncodeChar(s[0]), Encode(s[1..]));
    }
  }

  lemma CodedConcat(a: string, b: string)
    ensures CodedText(a) && CodedText(b) ==> CodedText(a + b)
    ensures Unquoted(a) && Unquoted(b) ==> Unquoted(a + b)
  {
  }

  lemma ByteAtExtends(s: string, rest: string, i: nat)
    requires ByteAt(s, i).Some?
    ensures ByteAt(s + rest, i) == ByteAt(s, i)
  {
  }

  lemma {:induction false} ContinuationExtends(s: string, rest: string, i: nat, need: nat, bits: nat)
    requires Continuation(s, i, need, bits).Some?
    ensures Continuation(s + rest, i, need, bits) == Continuation(s, i, need, bits)
    decreases need
  {
    if need > 0 {
      ByteAtExtends(s, rest, i);
      ContinuationExtends(s, rest, i + 3, need - 1, 64 * bits + ByteAt(s, i).value - 0x80);
    }
  }

  /** What follows a complete character does not change it. */
  lemma DecodeCharExtends(s: string, rest: string)
    requires s != "" && DecodeChar(s).Some?
    ensures DecodeChar(s + rest) == DecodeChar(s)
  {
    assert (s + rest)[0] == s[0];
    if s[0] == '%' {
      ByteAtExtends(s, rest, 0);
      var b := ByteAt(s, 0).value;
      if b >= 0x80 {
        var need := if b < 0xE0 then 1 else if b < 0xF0 then 2 else 3;
        ContinuationExtends(s, rest, 3, need, b - (if need == 1 then 0xC0 else if need == 2 then 0xE0 else 0xF0));
      }
    }
  }

  /** Text that decodes is decoded in front of whatever follows. */
  lemma {:induction false} DecodeConcat(s: string, rest: string)
    requires Decode(s).Some?
    ensures Decode(s + rest)
         == if Decode(rest).Some? then Some(Decode(s).value + Decode(rest).value) else None
    decreases |s|
  {
    if s == "" {
      assert s + rest == rest;
      assert Decode(s) == Some(s);
      assert Decode(rest).Some? ==> s + Decode(rest).value == Decode(rest).value;
    } else {
      DecodeCharExtends(s, rest);
      var k := DecodeChar(s).value.1;
      assert (s + rest)[k..] == s[k..] + rest;
      DecodeConcat(s[k..], rest);
      assert Decode(s[k..]).Some? && Decode(s).value == [DecodeChar(s).value.0] + Decode(s[k..]).value;
      if Decode(rest).Some? {
        Associative([DecodeChar(s).value.0], Decode(s[k..]).value, Decode(rest).value);
      }
    }
  }

  lemma EncodeCons(c: char, rest: string)
    ensures Encode([c] + rest) == EncodeChar(c) + Encode(rest)
  {
    assert ([c] + rest)[0] == c && ([c] + rest)[1..] == rest;
  }

  /** A character cut short is not a character. */
  lemma CutCharFails(c: char, part: string)
    requires part != "" && part < EncodeChar(c)
    ensures Decode(part).None?
  {
    var back := EncodeChar(c)[|part|..];
    assert part + back == EncodeChar(c) == EncodeChar(c) + "";
    DecodeEncodedChar(c, "");
    if DecodeChar(part).Some? {
      DecodeCharExtends(part, back);
    }
  }

  lemma DecodeFirst(c: char, rest: string)
    ensures Decode(EncodeChar(c) + rest) == if Decode(rest).Some? then Some([c] + Decode(rest).value) else None
  {
    DecodeEncodedChar(c, rest);
    assert (EncodeChar(c) + rest)[|EncodeChar(c)|..] == rest;
  }

  /** The first part of an encoded text decodes only when the cut is between two characters. */
  lemma {:induction false} CutDecodes(s: string, part: string)
    requires part <= Encode(s) && Decode(part).Some?
    ensures Decode(part).value <= s && part == Encode(Decode(part).value)
    decreases |s|
  {
    if part == "" {
    } else {
      var u, tail := EncodeChar(s[0]), Encode(s[1..]);
      assert Encode(s) == u + tail;
      if |part| < |u| {
        assert part == Encode(s)[..|part|] == u[..|part|];
        CutCharFails(s[0], part);
      } else {
        var rest := part[|u|..];
        assert part == u + rest && rest == tail[..|rest|];
        DecodeFirst(s[0], rest);
        CutDecodes(s[1..], rest);
        EncodeCons(s[0], Decode(rest).value);
        assert s == [s[0]] + s[1..];
      }
    }
  }

  /** What the first part of an encoded text decodes to: the prefix it is the encoding of, and nothing
      when there is none. */
  lemma CutDecodesIff(s: string, part: string, p: string)
    requires part <= Encode(s)
    ensures Decode(part) == Some(p) <==> p <= s && part == Encode(p)
  {
    if Decode(part).Some? {
      CutDecodes(s, part);
    }
    if part == Encode(p) {
      DecodeEncode(p);
    }
  }

  /** Encoding a longer text starts with encoding the shorter. */
  lemma EncodePrefix(p: string, s: string)
    requires p <= s
    ensures Encode(p) <= Encode(s)
    ensures p < s ==> Encode(p) < Encode(s)
  {
    EncodeConcat(p, s[|p|..]);
    assert s == p + s[|p|..];
    DecodeEncode(s[|p|..]);
  }

  /** Nothing is decoded to the empty string but itself. */
  lemma DecodeNonempty(s: string)
    requires s != "" && Decode(s).Some?
    ensures Decode(s).value != ""
  {
  }

  // ----- the alphabet and the bytes, written out

  /** The unreserved characters of encodeURIComponent stand for themselves, and no other does. */
  lemma PlainIff(c: char)
    ensures Encode([c]) == [c] <==>
              || 'A' <= c <= 'Z' || 'a' <= c <= 'z' || '0' <= c <= '9'
              || c == '-' || c == '_' || c == '.' || c == '!' || c == '~' || c == '*' || c == '\'' || c == '(' || c == ')'
  {
    EncodeCons(c, "");
    assert [c] + "" == [c] && EncodeChar(c) + "" == EncodeChar(c);
    if !IsPlain(c) {
      assert |EncodeChar(c)| >= 3;
    }
  }

  /** The bytes of a character in UTF-8. */
  function Utf8(c: char): (bytes: seq<nat>)
    ensures 1 <= |bytes| <= 4
    ensures forall k :: 0 <= k < |bytes| ==> bytes[k] < 256
  {
    var n := c as nat;
    if n < 0x80 then [n]
    else if n < 0x800 then [0xC0 + n / 0x40, 0x80 + n % 0x40]
    else if n < 0x1_0000 then [0xE0 + n / 0x1000, 0x80 + n / 0x40 % 0x40, 0x80 + n % 0x40]
    else [0xF0 + n / 0x4_0000, 0x80 + n / 0x1000 % 0x40, 0x80 + n / 0x40 % 0x40, 0x80 + n % 0x40]
  }

  const HEX: string := "0123456789ABCDEF"

  lemma HexDigitIs(d: nat)
    requires d < 16
    ensures HexDigit(d) == HEX[d]
  {
    assert HEX[0] == '0' && HEX[1] == '1' && HEX[2] == '2' && HEX[3] == '3' && HEX[4] == '4' && HEX[5] == '5';
    assert HEX[6] == '6' && HEX[7] == '7' && HEX[8] == '8' && HEX[9] == '9' && HEX[10] == 'A' && HEX[11] == 'B';
    assert HEX[12] == 'C' && HEX[13] == 'D' && HEX[14] == 'E' && HEX[15] == 'F';
  }

  /** A byte prints as a percent sign and its two digits in upper case. */
  lemma PercentIs(high: nat, low: nat)
    requires high < 16 && low < 16
    ensures Percent(16 * high + low) == ['%', "0123456789ABCDEF"[high], "0123456789ABCDEF"[low]]
  {
    HexDigitIs(high);
    HexDigitIs(low);
    assert (16 * high + low) / 16 == high && (16 * high + low) % 16 == low;
  }

  /** A space, an accent and the euro sign, for instance. */
  lemma SpaceIs()
    ensures EncodeChar(' ') == "%20"
  {
    PercentIs(2, 0);
  }

  lemma AccentIs()
    ensures EncodeChar('\U{E9}') == "%C3%A9"
  {
    PercentIs(0xC, 3);
    PercentIs(0xA, 9);
    assert Percent(0xC3) + Percent(0xA9) == "%C3%A9";
  }

  lemma EuroIs()
    ensures EncodeChar('\U{20AC}') == "%E2%82%AC"
  {
    PercentIs(0xE, 2);
    PercentIs(8, 2);
    PercentIs(0xA, 0xC);
    assert Percent(0xE2) + Percent(0x82) + Percent(0xAC) == "%E2%82%AC";
  }

  // ----- what decodes

  /** u is c itself, or each byte of c as a percent sign and two hexadecimal digits of either case. */
  predicate Spells(u: string, c: char) {
    || (u == [c] && c != '%')
    || (|u| == 3 * |Utf8(c)| && forall k :: 0 <= k < |Utf8(c)| ==> ByteAt(u, 3 * k) == Some(Utf8(c)[k]))
  }

  lemma ByteAtFront(s: string, k: nat, i: nat)
    requires i + 3 <= k <= |s|
    ensures ByteAt(s[..k], i) == ByteAt(s, i)
  {
  }

  lemma SpelledDecodes(s: string, c: char, k: nat)
    requires 1 <= k <= |s| && Spells(s[..k], c)
    ensures DecodeChar(s) == Some((c, k))
  {
    var u, n, bytes := s[..k], c as nat, Utf8(c);
    if u == [c] && c != '%' {
      assert s[0] == u[0];
    } else {
      forall j | 0 <= j < |bytes|
        ensures ByteAt(s, 3 * j) == Some(bytes[j])
      {
        ByteAtFront(s, k, 3 * j);
      }
      assert ByteAt(s, 3 * 0) == Some(bytes[0]);
      SixBits(n);
      if |bytes| == 2 {
        assert ByteAt(s, 3 * 1) == Some(bytes[1]);
        ContinuationStep(s, 3, 1, n / 64, n % 64);
      } else if |bytes| == 3 {
        assert ByteAt(s, 3 * 1) == Some(bytes[1]) && ByteAt(s, 3 * 2) == Some(bytes[2]);
        ThreeContinue(s, n);
      } else if |bytes| == 4 {
        assert ByteAt(s, 3 * 1) == Some(bytes[1]) && ByteAt(s, 3 * 2) == Some(bytes[2]) && ByteAt(s, 3 * 3) == Some(bytes[3]);
        FourContinue(s, n);
      }
    }
  }

  /** The bits that one more byte brings. */
  lemma ContinuationBytes(s: string, i: nat, need: nat, bits: nat) returns (x: nat)
    requires need > 0 && Continuation(s, i, need, bits).Some?
    ensures x < 64 && ByteAt(s, i) == Some(0x80 + x)
    ensures Continuation(s, i + 3, need - 1, 64 * bits + x) == Continuation(s, i, need, bits)
  {
    x := ByteAt(s, i).value - 0x80;
  }

  lemma DivMod64(a: nat, x: nat)
    requires x < 64
    ensures (64 * a + x) / 64 == a && (64 * a + x) % 64 == x
  {
  }

  lemma TwoBytesSpell(s: string, bits: nat)
    requires ByteAt(s, 0) == Some(0xC0 + bits) && bits < 0x20
    requires Continuation(s, 3, 1, bits).Some? && IsScalar(Continuation(s, 3, 1, bits).value, 1)
    ensures |s| >= 6 && Spells(s[..6], Continuation(s, 3, 1, bits).value as char)
  {
    var x := ContinuationBytes(s, 3, 1, bits);
    var n := 64 * bits + x;
    assert Continuation(s, 6, 0, n) == Some(n);
    DivMod64(bits, x);
    ByteAtFront(s, 6, 0);
    ByteAtFront(s, 6, 3);
    assert Utf8(n as char) == [0xC0 + bits, 0x80 + x];
  }

  lemma DivNest(n: nat)
    ensures n / 4096 == n / 64 / 64 && n / 262144 == n / 64 / 64 / 64
  {
  }

  /** Three groups of bits, and four. */
  lemma Split3(a: nat, x: nat, y: nat, n: nat)
    requires x < 64 && y < 64 && n == 64 * (64 * a + x) + y
    ensures n / 4096 == a && n / 64 % 64 == x && n % 64 == y && n / 64 == 64 * a + x
  {
    DivMod64(a, x);
    DivMod64(64 * a + x, y);
    DivNest(n);
  }

  lemma Split4(a: nat, x: nat, y: nat, z: nat, n: nat)
    requires x < 64 && y < 64 && z < 64 && n == 64 * (64 * (64 * a + x) + y) + z
    ensures n / 262144 == a && n / 4096 % 64 == x && n / 64 % 64 == y && n % 64 == z
  {
    var m := 64 * (64 * a + x) + y;
    Split3(a, x, y, m);
    DivMod64(m, z);
    DivNest(n);
    DivNest(m);
  }

  lemma ThreeBytesSpell(s: string, bits: nat)
    requires ByteAt(s, 0) == Some(0xE0 + bits) && bits < 0x10
    requires Continuation(s, 3, 2, bits).Some? && IsScalar(Continuation(s, 3, 2, bits).value, 2)
    ensures |s| >= 9 && Spells(s[..9], Continuation(s, 3, 2, bits).value as char)
  {
    var x := ContinuationBytes(s, 3, 2, bits);
    var y := ContinuationBytes(s, 6, 1, 64 * bits + x);
    var n := 64 * (64 * bits + x) + y;
    assert Continuation(s, 9, 0, n) == Some(n);
    Split3(bits, x, y, n);
    ByteAtFront(s, 9, 0);
    ByteAtFront(s, 9, 3);
    ByteAtFront(s, 9, 6);
    assert Utf8(n as char) == [0xE0 + bits, 0x80 + x, 0x80 + y];
  }

  lemma SpellsFour(u: string, c: char, a: nat, b: nat, d: nat, e: nat)
    requires Utf8(c) == [a, b, d, e] && |u| == 12
    requires ByteAt(u, 0) == Some(a) && ByteAt(u, 3) == Some(b) && ByteAt(u, 6) == Some(d) && ByteAt(u, 9) == Some(e)
    ensures Spells(u, c)
  {
  }

  lemma FourBytesSpell(s: string, bits: nat)
    requires ByteAt(s, 0) == Some(0xF0 + bits) && bits < 0x8
    requires Continuation(s, 3, 3, bits).Some? && IsScalar(Continuation(s, 3, 3, bits).value, 3)
    ensures |s| >= 12 && Spells(s[..12], Continuation(s, 3, 3, bits).value as char)
  {
    var x := ContinuationBytes(s, 3, 3, bits);
    var y := ContinuationBytes(s, 6, 2, 64 * bits + x);
    var z := ContinuationBytes(s, 9, 1, 64 * (64 * bits + x) + y);
    var n := 64 * (64 * (64 * bits + x) + y) + z;
    assert Continuation(s, 12, 0, n) == Some(n);
    Split4(bits, x, y, z, n);
    ByteAtFront(s, 12, 0);
    ByteAtFront(s, 12, 3);
    ByteAtFront(s, 12, 6);
    ByteAtFront(s, 12, 9);
    SpellsFour(s[..12], n as char, 0xF0 + bits, 0x80 + x, 0x80 + y, 0x80 + z);
  }

  lemma DecodedIsSpelled(s: string)
    requires s != "" && DecodeChar(s).Some?
    ensures Spells(s[..DecodeChar(s).value.1], DecodeChar(s).value.0)
  {
    if s[0] != '%' {
      assert s[..1] == [s[0]];
    } else {
      var b := ByteAt(s, 0).value;
      if b < 0x80 {
        ByteAtFront(s, 3, 0);
        assert Utf8(b as char) == [b];
      } else if b < 0xE0 {
        TwoBytesSpell(s, b - 0xC0);
      } else if b < 0xF0 {
        ThreeBytesSpell(s, b - 0xE0);
      } else {
        FourBytesSpell(s, b - 0xF0);
      }
    }
  }

  /** s is cut into as many pieces as t has characters, each a spelling of its character. */
  ghost predicate Spelling(s: string, t: string)
    decreases |t|
  {
    if t == "" then s == ""
    else exists k :: 1 <= k <= |s| && Spells(s[..k], t[0]) && Spelling(s[k..], t[1..])
  }

  /** Exactly what decodes, and to what: every other text is malformed. */
  lemma {:induction false} DecodeIff(s: string, t: string)
    ensures Decode(s) == Some(t) <==> Spelling(s, t)
    decreases |t|
  {
    if t == "" {
      if s != "" && Decode(s).Some? {
        DecodeNonempty(s);
      }
    } else {
      assert t == [t[0]] + t[1..];
      if Decode(s) == Some(t) {
        var k := DecodeChar(s).value.1;
        DecodedIsSpelled(s);
        DecodeIff(s[k..], t[1..]);
        assert Decode(s[k..]) == Some(t[1..]);
        assert DecodeChar(s).value.0 == t[0];
      }
      if Spelling(s, t) {
        var k :| 1 <= k <= |s| && Spells(s[..k], t[0]) && Spelling(s[k..], t[1..]);
        SpelledDecodes(s, t[0], k);
        DecodeIff(s[k..], t[1..]);
      }
    }
  }
}
