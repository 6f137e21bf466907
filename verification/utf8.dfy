/**
 * Strict UTF-8, as Python's `bytes.decode("utf-8")` applies it: a byte string
 * decodes exactly when it is a concatenation of well-formed sequences (The
 * Unicode Standard, table 3-7, "Well-Formed UTF-8 Byte Sequences"); overlong
 * forms, surrogates, code points above U+10FFFF and truncated sequences are
 * errors.  The encoder is the independent reference the decoder is proved
 * against: a byte string decodes to `s` exactly when it is the encoding of `s`.
 */
module Utf8 {
  import opened Wrappers

  type byte = x: int | 0 <= x < 256

  /** A Unicode scalar value: what a Dafny `char` holds. */
  predicate IsScalar(cp: int) {
    0 <= cp < 0xD800 || 0xE000 <= cp < 0x11_0000
  }

  predicate IsContinuation(x: byte) { 0x80 <= x <= 0xBF }

  /** The width of the sequence a lead byte announces; 0 when it cannot start one. */
  function SequenceWidth(lead: byte): nat {
    if lead <= 0x7F then 1
    else if 0xC2 <= lead <= 0xDF then 2
    else if 0xE0 <= lead <= 0xEF then 3
    else if 0xF0 <= lead <= 0xF4 then 4
    else 0
  }

  /** The bounds table 3-7 puts on the byte after a lead byte. */
  function SecondLow(lead: byte): byte {
    if lead == 0xE0 then 0xA0 else if lead == 0xF0 then 0x90 else 0x80
  }

  function SecondHigh(lead: byte): byte {
    if lead == 0xED then 0x9F else if lead == 0xF4 then 0x8F else 0xBF
  }

  /** The length of the well-formed sequence `b` starts with, or 0 when it starts with none. */
  function LeadingWidth(b: seq<byte>): (w: nat)
    ensures w <= |b| && w <= 4
  {
    if |b| == 0 then 0
    else
      var w := SequenceWidth(b[0]);
      if w == 0 || |b| < w then 0
      else if w == 1 then 1
      else if !(SecondLow(b[0]) <= b[1] <= SecondHigh(b[0])) then 0
      else if w >= 3 && !IsContinuation(b[2]) then 0
      else if w == 4 && !IsContinuation(b[3]) then 0
      else w
  }

  /** The bits a byte carries once its marker `base` is taken off. */
  function Payload(x: byte, base: byte): int { x as int - base as int }

  /** The code point of the well-formed sequence at the start of `b`. */
  function CodePoint(b: seq<byte>): (cp: int)
    requires LeadingWidth(b) > 0
    ensures IsScalar(cp)
    ensures LeadingWidth(b) == 1 <==> cp < 0x80
    ensures LeadingWidth(b) == 2 <==> 0x80 <= cp < 0x800
    ensures LeadingWidth(b) == 3 <==> 0x800 <= cp < 0x1_0000
    ensures LeadingWidth(b) == 4 <==> 0x1_0000 <= cp
  {
    var w := LeadingWidth(b);
    if w == 1 then b[0]
    else if w == 2 then Payload(b[0], 0xC0) * 64 + Payload(b[1], 0x80)
    else if w == 3 then Payload(b[0], 0xE0) * 4096 + Payload(b[1], 0x80) * 64 + Payload(b[2], 0x80)
    else Payload(b[0], 0xF0) * 262144 + Payload(b[1], 0x80) * 4096 + Payload(b[2], 0x80) * 64 + Payload(b[3], 0x80)
  }

  /** The UTF-8 encoding of one character. */
  function EncodeChar(c: char): (r: seq<byte>)
    ensures 1 <= |r| <= 4
  {
    var cp := c as int;
    if cp < 0x80 then [cp]
    else if cp < 0x800 then [0xC0 + cp / 64, 0x80 + cp % 64]
    else if cp < 0x1_0000 then [0xE0 + cp / 4096, 0x80 + (cp / 64) % 64, 0x80 + cp % 64]
    else [0xF0 + cp / 262144, 0x80 + (cp / 4096) % 64, 0x80 + (cp / 64) % 64, 0x80 + cp % 64]
  }

  /** Python's `s.encode("utf-8")`. */
  function Encode(s: string): (r: seq<byte>)
    ensures |s| <= |r| <= 4 * |s|
  {
    if s == [] then [] else EncodeChar(s[0]) + Encode(s[1..])
  }

  /** Python's `b.decode("utf-8")`: `None` where Python raises UnicodeDecodeError. */
  function Decode(b: seq<byte>): (r: Option<string>)
    ensures r.Some? ==> |r.value| <= |b| <= 4 * |r.value|
    decreases |b|
  {
    if b == [] then Some([])
    else
      var w := LeadingWidth(b);
      if w == 0 then None
      else
        match Decode(b[w..])
        case None => None
        case Some(rest) => Some([CodePoint(b) as char] + rest)
  }

  predicate IsValid(b: seq<byte>) { Decode(b).Some? }

  // Division by the constant radices, one fact at a time.

  lemma DivMod64(q: int, r: int)
    requires 0 <= r < 64
    ensures (q * 64 + r) / 64 == q && (q * 64 + r) % 64 == r
  {
  }

  lemma DivMod4096(q: int, r: int)
    requires 0 <= r < 4096
    ensures (q * 4096 + r) / 4096 == q
  {
  }

  lemma DivMod262144(q: int, r: int)
    requires 0 <= r < 262144
    ensures (q * 262144 + r) / 262144 == q
  {
  }

  /** A code point is its base-64 digits: the lead byte's payload and the continuation payloads. */
  lemma Digits(cp: nat)
    ensures cp == (cp / 64) * 64 + cp % 64
    ensures cp == (cp / 4096) * 4096 + ((cp / 64) % 64) * 64 + cp % 64
    ensures cp == (cp / 262144) * 262144 + ((cp / 4096) % 64) * 4096 + ((cp / 64) % 64) * 64 + cp % 64
  {
    var q1, q2 := cp / 64, cp / 64 / 64;
    assert cp == q1 * 64 + cp % 64;
    assert q1 == q2 * 64 + q1 % 64;
    DivMod4096(q2, (q1 % 64) * 64 + cp % 64);
    assert q2 == cp / 4096;
    assert q2 == (q2 / 64) * 64 + q2 % 64;
    DivMod262144(q2 / 64, (q2 % 64) * 4096 + (q1 % 64) * 64 + cp % 64);
  }

  /** An encoded character is read back whole, whatever follows it. */
  lemma EncodeCharReadsBack(c: char, rest: seq<byte>)
    ensures LeadingWidth(EncodeChar(c) + rest) == |EncodeChar(c)|
    ensures CodePoint(EncodeChar(c) + rest) == c as int
  {
    var cp := c as int;
    if cp < 0x80 {
    } else if cp < 0x800 {
      ReadsBackTwo(c, rest);
    } else if cp < 0x1_0000 {
      ReadsBackThree(c, rest);
    } else {
      ReadsBackFour(c, rest);
    }
  }

  lemma ReadsBackTwo(c: char, rest: seq<byte>)
    requires 0x80 <= c as int < 0x800
    ensures LeadingWidth(EncodeChar(c) + rest) == 2 && CodePoint(EncodeChar(c) + rest) == c as int
  {
    var cp := c as int;
    Digits(cp);
    var b := EncodeChar(c) + rest;
    assert b[0] == 0xC0 + cp / 64 && b[1] == 0x80 + cp % 64;
  }

  lemma ReadsBackThree(c: char, rest: seq<byte>)
    requires 0x800 <= c as int < 0x1_0000
    ensures LeadingWidth(EncodeChar(c) + rest) == 3 && CodePoint(EncodeChar(c) + rest) == c as int
  {
    var cp := c as int;
    Digits(cp);
    var b := EncodeChar(c) + rest;
    assert b[0] == 0xE0 + cp / 4096 && b[1] == 0x80 + (cp / 64) % 64 && b[2] == 0x80 + cp % 64;
    assert b[0] == 0xE0 ==> (cp / 64) % 64 >= 32;
    assert b[0] == 0xED ==> (cp / 64) % 64 < 32;
  }

  lemma ReadsBackFour(c: char, rest: seq<byte>)
    requires 0x1_0000 <= c as int
    ensures LeadingWidth(EncodeChar(c) + rest) == 4 && CodePoint(EncodeChar(c) + rest) == c as int
  {
    var cp := c as int;
    Digits(cp);
    var b := EncodeChar(c) + rest;
    assert b[0] == 0xF0 + cp / 262144 && b[1] == 0x80 + (cp / 4096) % 64;
    assert b[2] == 0x80 + (cp / 64) % 64 && b[3] == 0x80 + cp % 64;
    assert b[0] == 0xF0 ==> (cp / 4096) % 64 >= 16;
    assert b[0] == 0xF4 ==> (cp / 4096) % 64 < 16;
  }

  /** A well-formed sequence is the encoding of the character it decodes to. */
  lemma CodePointEncodesBack(b: seq<byte>)
    requires LeadingWidth(b) > 0
    ensures EncodeChar(CodePoint(b) as char) == b[..LeadingWidth(b)]
  {
    var w := LeadingWidth(b);
    if w == 2 {
      EncodesBackTwo(b);
    } else if w == 3 {
      EncodesBackThree(b);
    } else if w == 4 {
      EncodesBackFour(b);
    }
  }

  lemma EncodesBackTwo(b: seq<byte>)
    requires LeadingWidth(b) == 2
    ensures EncodeChar(CodePoint(b) as char) == b[..2]
  {
    DivMod64(Payload(b[0], 0xC0), Payload(b[1], 0x80));
  }

  lemma EncodesBackThree(b: seq<byte>)
    requires LeadingWidth(b) == 3
    ensures EncodeChar(CodePoint(b) as char) == b[..3]
  {
    var p0, p1, p2 := Payload(b[0], 0xE0), Payload(b[1], 0x80), Payload(b[2], 0x80);
    assert CodePoint(b) == p0 * 4096 + p1 * 64 + p2;
    DivMod64(p0 * 64 + p1, p2);
    DivMod64(p0, p1);
    DivMod4096(p0, p1 * 64 + p2);
  }

  lemma EncodesBackFour(b: seq<byte>)
    requires LeadingWidth(b) == 4
    ensures EncodeChar(CodePoint(b) as char) == b[..4]
  {
    var p0, p1, p2, p3 := Payload(b[0], 0xF0), Payload(b[1], 0x80), Payload(b[2], 0x80), Payload(b[3], 0x80);
    assert CodePoint(b) == p0 * 262144 + p1 * 4096 + p2 * 64 + p3;
    DivMod64(p0 * 4096 + p1 * 64 + p2, p3);
    DivMod64(p0 * 64 + p1, p2);
    DivMod64(p0, p1);
    DivMod4096(p0 * 64 + p1, p2 * 64 + p3);
    DivMod262144(p0, p1 * 4096 + p2 * 64 + p3);
  }

  /** A byte string decodes to `s` exactly when it is the UTF-8 encoding of `s`. */
  lemma {:induction false} DecodeIffEncode(b: seq<byte>, s: string)
    ensures Decode(b) == Some(s) <==> Encode(s) == b
    decreases |b|
  {
    if Decode(b) == Some(s) {
      DecodeEncodes(b);
    }
    if Encode(s) == b {
      EncodeDecodes(s);
    }
  }

  lemma {:induction false} EncodeDecodes(s: string)
    ensures Decode(Encode(s)) == Some(s)
  {
    if s != [] {
      var e := EncodeChar(s[0]);
      EncodeCharReadsBack(s[0], Encode(s[1..]));
      EncodeDecodes(s[1..]);
      assert (e + Encode(s[1..]))[|e|..] == Encode(s[1..]);
      assert [s[0]] + s[1..] == s;
    }
  }

  lemma {:induction false} DecodeEncodes(b: seq<byte>)
    requires IsValid(b)
    ensures Encode(Decode(b).value) == b
    decreases |b|
  {
    if b != [] {
      var w := LeadingWidth(b);
      var c, rest := CodePoint(b) as char, Decode(b[w..]).value;
      DecodeStep(b);
      DecodeEncodes(b[w..]);
      CodePointEncodesBack(b);
      EncodeCons(c, rest);
      SplitJoin(b, w);
    }
  }

  lemma SplitJoin(b: seq<byte>, w: nat)
    requires w <= |b|
    ensures b[..w] + b[w..] == b
  {
  }

  /** One step of decoding: the leading sequence, then the rest. */
  lemma DecodeStep(b: seq<byte>)
    requires b != [] && IsValid(b)
    ensures LeadingWidth(b) > 0 && IsValid(b[LeadingWidth(b)..])
    ensures Decode(b).value == [CodePoint(b) as char] + Decode(b[LeadingWidth(b)..]).value
  {
  }

  lemma EncodeCons(c: char, rest: string)
    ensures Encode([c] + rest) == EncodeChar(c) + Encode(rest)
  {
    assert ([c] + rest)[1..] == rest;
  }

}
