/** UTF-8 (section 3 of RFC 3629): the encoder, a strict decoder, and the facts about code-point
    boundaries that the output window and the bounded error text rest on.
    A Dafny `char` is a Unicode scalar value, so lone surrogates do not occur. */
module Utf8 {
  import opened Basics

  /** A byte, as a plain integer: everything encoded lies in 0..255, and nothing else decodes. */
  type Byte = int

  /** `byte & 0xC0 == 0x80`. */
  predicate IsContinuation(b: Byte) {
    0x80 <= b < 0xC0
  }

  function EncodeChar(c: char): (bytes: seq<Byte>)
    ensures 1 <= |bytes| <= 4
    ensures !IsContinuation(bytes[0])
    ensures forall i | 1 <= i < |bytes| :: IsContinuation(bytes[i])
  {
    var n := c as int;
    if n < 0x80 then [n]
    else if n < 0x800 then [0xC0 + n / 64, 0x80 + n % 64]
    else if n < 0x1_0000 then [0xE0 + n / 64 / 64, 0x80 + n / 64 % 64, 0x80 + n % 64]
    else [0xF0 + n / 64 / 64 / 64, 0x80 + n / 64 / 64 % 64, 0x80 + n / 64 % 64, 0x80 + n % 64]
  }

  function Encode(s: string): (bytes: seq<Byte>)
    ensures |s| <= |bytes| <= 4 * |s|
  {
    if s == "" then [] else EncodeChar(s[0]) + Encode(s[1..])
  }

  predicate IsScalar(n: int) {
    0 <= n < 0xD800 || 0xE000 <= n < 0x11_0000
  }

  /** The first code point of `bytes`: shortest form only, no surrogates, nothing above U+10FFFF. */
  function DecodeFirst(bytes: seq<Byte>): (r: Option<char>)
    requires bytes != []
  {
    var lead: int := bytes[0];
    if 0 <= lead < 0x80 then Some(lead as char)
    else if 0xC2 <= lead < 0xE0 && Continues(bytes, 2) then
      Some(((lead - 0xC0) * 64 + Low(bytes[1])) as char)
    else if 0xE0 <= lead < 0xF0 && Continues(bytes, 3) then
      Checked(((lead - 0xE0) * 64 + Low(bytes[1])) * 64 + Low(bytes[2]), 0x800)
    else if 0xF0 <= lead < 0xF5 && Continues(bytes, 4) then
      Checked((((lead - 0xF0) * 64 + Low(bytes[1])) * 64 + Low(bytes[2])) * 64 + Low(bytes[3]), 0x1_0000)
    else None
  }

  predicate Continues(bytes: seq<Byte>, length: nat) {
    length <= |bytes| && forall i | 1 <= i < length :: IsContinuation(bytes[i])
  }

  /** The six payload bits of a continuation byte. */
  function Low(b: Byte): (n: int)
    requires IsContinuation(b)
  {
    b - 0x80
  }

  function Checked(n: nat, least: nat): Option<char> {
    if least <= n && IsScalar(n) then Some(n as char) else None
  }

  /** `bytes.decode("utf-8")`: None where Python raises UnicodeDecodeError. */
  function Decode(bytes: seq<Byte>): Option<string> {
    if bytes == [] then Some("")
    else
      var first := DecodeFirst(bytes);
      if first.None? then None
      else
        DecodeFirstSound(bytes);
        var rest := Decode(bytes[|EncodeChar(first.value)|..]);
        if rest.None? then None else Some([first.value] + rest.value)
  }

  predicate Valid(bytes: seq<Byte>) {
    Decode(bytes).Some?
  }

  lemma DigitsOf(high: nat, low: int)
    requires 0 <= low < 64
    ensures (high * 64 + low) / 64 == high && (high * 64 + low) % 64 == low
  {
  }

  lemma DecodeFirstSound(bytes: seq<Byte>)
    requires bytes != [] && DecodeFirst(bytes).Some?
    ensures EncodeChar(DecodeFirst(bytes).value) <= bytes
  {
    var lead: int := bytes[0];
    if 0xC2 <= lead < 0xE0 {
      DigitsOf(lead - 0xC0, Low(bytes[1]));
    } else if 0xE0 <= lead < 0xF0 {
      DecodeThreeSound(bytes);
    } else if 0xF0 <= lead {
      DecodeFourSound(bytes);
    }
  }

  lemma DecodeThreeSound(bytes: seq<Byte>)
    requires bytes != [] && 0xE0 <= bytes[0] < 0xF0 && DecodeFirst(bytes).Some?
    ensures EncodeChar(DecodeFirst(bytes).value) <= bytes
  {
    DigitsOf(bytes[0] - 0xE0, Low(bytes[1]));
    DigitsOf((bytes[0] - 0xE0) * 64 + Low(bytes[1]), Low(bytes[2]));
  }

  lemma DecodeFourSound(bytes: seq<Byte>)
    requires bytes != [] && 0xF0 <= bytes[0] && DecodeFirst(bytes).Some?
    ensures EncodeChar(DecodeFirst(bytes).value) <= bytes
  {
    var n := (bytes[0] - 0xF0) * 64 + Low(bytes[1]);
    DigitsOf(bytes[0] - 0xF0, Low(bytes[1]));
    DigitsOf(n, Low(bytes[2]));
    DigitsOf(n * 64 + Low(bytes[2]), Low(bytes[3]));
  }

  lemma DecodeFirstOfEncoded(c: char, rest: seq<Byte>)
    ensures DecodeFirst(EncodeChar(c) + rest) == Some(c)
  {
    var bytes := EncodeChar(c) + rest;
    assert bytes[..|EncodeChar(c)|] == EncodeChar(c);
  }

  lemma {:induction false} DecodeOfEncode(s: string)
    ensures Decode(Encode(s)) == Some(s)
  {
    if s != "" {
      var rest := Encode(s[1..]);
      DecodeFirstOfEncoded(s[0], rest);
      DecodeOfEncode(s[1..]);
      assert Encode(s)[|EncodeChar(s[0])|..] == rest;
      assert [s[0]] + s[1..] == s;
    }
  }

  /** The decoder is strict: whatever it accepts is the encoding of what it returns. */
  lemma {:induction false} EncodeOfDecode(bytes: seq<Byte>)
    requires Valid(bytes)
    ensures Encode(Decode(bytes).value) == bytes
  {
    hide EncodeChar, DecodeFirst;
    if bytes != [] {
      DecodeFirstSound(bytes);
      var c := DecodeFirst(bytes).value;
      var rest := bytes[|EncodeChar(c)|..];
      EncodeOfDecode(rest);
      var s := Decode(bytes).value;
      assert s[1..] == Decode(rest).value;
      assert EncodeChar(c) + rest == bytes;
    }
  }

  lemma EncodeCons(c: char, s: string)
    ensures Encode([c] + s) == EncodeChar(c) + Encode(s)
  {
    hide EncodeChar;
    assert ([c] + s)[0] == c && ([c] + s)[1..] == s;
  }

  lemma {:induction false} EncodeConcat(s: string, t: string)
    ensures Encode(s + t) == Encode(s) + Encode(t)
  {
    if s == "" {
      assert s + t == t;
    } else {
      var u := s[1..];
      assert s == [s[0]] + u;
      EncodeConcat(u, t);
      EncodeCons(s[0], u);
      EncodeCons(s[0], u + t);
      ConcatAssociative([s[0]], u, t);
      ConcatAssociative(EncodeChar(s[0]), Encode(u), Encode(t));
    }
  }

  lemma ValidConcat(a: seq<Byte>, b: seq<Byte>)
    requires Valid(a) && Valid(b)
    ensures Valid(a + b)
    ensures Decode(a + b).value == Decode(a).value + Decode(b).value
  {
    EncodeOfDecode(a);
    EncodeOfDecode(b);
    EncodeConcat(Decode(a).value, Decode(b).value);
    DecodeOfEncode(Decode(a).value + Decode(b).value);
  }

  /** The code-point boundaries of a valid byte string: its end, and every byte that is not a
      continuation byte. */
  predicate AtBoundary(bytes: seq<Byte>, i: nat)
    requires i <= |bytes|
  {
    i == |bytes| || !IsContinuation(bytes[i])
  }

  /** Cutting an encoding at a boundary cuts the text: both halves are encodings. */
  lemma {:induction false} CutAtBoundary(s: string, i: nat) returns (k: nat)
    requires i <= |Encode(s)| && AtBoundary(Encode(s), i)
    ensures k <= |s|
    ensures Encode(s[..k]) == Encode(s)[..i]
    ensures Encode(s[k..]) == Encode(s)[i..]
  {
    if i == 0 {
      k := 0;
      assert s[..0] == "" && s[0..] == s;
    } else {
      var head := EncodeChar(s[0]);
      var tail := Encode(s[1..]);
      assert Encode(s) == head + tail;
      if i < |head| {
        assert false;
      }
      assert i < |Encode(s)| ==> tail[i - |head|] == Encode(s)[i];
      var k' := CutAtBoundary(s[1..], i - |head|);
      k := k' + 1;
      assert s[..k][1..] == s[1..][..k'];
      assert s[k..] == s[1..][k'..];
      assert Encode(s)[..i] == head + tail[..i - |head|];
      assert Encode(s)[i..] == tail[i - |head|..];
    }
  }

  lemma ValidCut(bytes: seq<Byte>, i: nat)
    requires Valid(bytes) && i <= |bytes| && AtBoundary(bytes, i)
    ensures Valid(bytes[..i]) && Valid(bytes[i..])
    ensures Decode(bytes).value == Decode(bytes[..i]).value + Decode(bytes[i..]).value
  {
    hide Decode, Encode, AtBoundary;
    var s := Decode(bytes).value;
    EncodeOfDecode(bytes);
    var k := CutAtBoundary(s, i);
    DecodeOfEncode(s[..k]);
    DecodeOfEncode(s[k..]);
    assert s == s[..k] + s[k..];
  }

  /** The first byte of a non-empty valid string begins a code point. */
  lemma ValidStart(bytes: seq<Byte>)
    requires Valid(bytes) && bytes != []
    ensures !IsContinuation(bytes[0])
  {
  }
}
