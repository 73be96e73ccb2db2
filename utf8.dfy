/**
 * The default text codec of `read_file`: UTF-8 as RFC 3629 defines it. The
 * decoder is strict: it accepts exactly the byte strings generated by the
 * grammar of section 4 of RFC 3629 (no overlong forms, no surrogates, nothing
 * above U+10FFFF), so any other byte string raises `UnicodeDecodeError`.
 */
module Utf8 {
  import opened Wrappers
  import opened Octets

  /** UTF8-tail of the grammar. */
  predicate Tail(b: int)
  {
    0x80 <= b <= 0xBF
  }

  /** The second byte allowed after the lead byte `b0` of a UTF8-3 sequence. */
  predicate Second3(b0: int, b1: int)
  {
    if b0 == 0xE0 then 0xA0 <= b1 <= 0xBF
    else if b0 == 0xED then 0x80 <= b1 <= 0x9F
    else Tail(b1)
  }

  /** The second byte allowed after the lead byte `b0` of a UTF8-4 sequence. */
  predicate Second4(b0: int, b1: int)
  {
    if b0 == 0xF0 then 0x90 <= b1 <= 0xBF
    else if b0 == 0xF4 then 0x80 <= b1 <= 0x8F
    else Tail(b1)
  }

  /** The encoding of one scalar value, per the table of section 3 of RFC 3629. */
  function EncodeChar(c: char): (r: seq<Byte>)
    ensures 1 <= |r| <= 4
  {
    var v := c as int;
    if v < 0x80 then [v]
    else if v < 0x800 then [0xC0 + v / 0x40, 0x80 + v % 0x40]
    else if v < 0x1_0000 then [0xE0 + v / 0x1000, 0x80 + v / 0x40 % 0x40, 0x80 + v % 0x40]
    else [0xF0 + v / 0x4_0000, 0x80 + v / 0x1000 % 0x40, 0x80 + v / 0x40 % 0x40, 0x80 + v % 0x40]
  }

  function Encode(s: string): seq<Byte>
  {
    if s == [] then [] else EncodeChar(s[0]) + Encode(s[1..])
  }

  /**
   * The character and the length of the well-formed sequence at the head of
   * `b`, or None when `b` does not start with one.
   */
  function DecodeFirst(b: seq<Byte>): (r: Option<(char, nat)>)
    requires |b| > 0
    ensures r.Some? ==> 1 <= r.value.1 <= |b|
  {
    var b0 := b[0] as int;
    if b0 <= 0x7F then Some((b0 as char, 1))
    else if 0xC2 <= b0 <= 0xDF then
      if |b| >= 2 && Tail(b[1]) then Some((((b0 - 0xC0) * 0x40 + (b[1] as int - 0x80)) as char, 2))
      else None
    else if 0xE0 <= b0 <= 0xEF then
      if |b| >= 3 && Second3(b0, b[1]) && Tail(b[2]) then
        Some((((b0 - 0xE0) * 0x1000 + (b[1] as int - 0x80) * 0x40 + (b[2] as int - 0x80)) as char, 3))
      else None
    else if 0xF0 <= b0 <= 0xF4 then
      if |b| >= 4 && Second4(b0, b[1]) && Tail(b[2]) && Tail(b[3]) then
        Some((((b0 - 0xF0) * 0x4_0000 + (b[1] as int - 0x80) * 0x1000 + (b[2] as int - 0x80) * 0x40 + (b[3] as int - 0x80)) as char, 4))
      else None
    else None
  }

  /** `bytes.decode("utf-8")`: the text, or None where Python raises `UnicodeDecodeError`. */
  function Decode(b: seq<Byte>): Option<string>
    decreases |b|
  {
    if b == [] then Some("")
    else match DecodeFirst(b)
      case None => None
      case Some((c, n)) =>
        match Decode(b[n..])
        case None => None
        case Some(t) => Some([c] + t)
  }

  // ---------------------------------------------------------------------------
  // One character

  lemma EncodeFirst2(c: char, rest: seq<Byte>)
    requires 0x80 <= c as int < 0x800
    ensures DecodeFirst(EncodeChar(c) + rest) == Some((c, 2))
  {
    var v := c as int;
    var b := EncodeChar(c) + rest;
    assert b[0] == 0xC0 + v / 0x40 && b[1] == 0x80 + v % 0x40;
    assert (b[0] as int - 0xC0) * 0x40 + (b[1] as int - 0x80) == v;
  }

  lemma EncodeFirst3(c: char, rest: seq<Byte>)
    requires 0x800 <= c as int < 0x1_0000
    ensures DecodeFirst(EncodeChar(c) + rest) == Some((c, 3))
  {
    var v := c as int;
    var q, m, t := v / 0x1000, v / 0x40 % 0x40, v % 0x40;
    assert v / 0x40 == q * 0x40 + m;
    assert v == q * 0x1000 + m * 0x40 + t;
    var b := EncodeChar(c) + rest;
    assert b[0] == 0xE0 + q && b[1] == 0x80 + m && b[2] == 0x80 + t;
    assert Second3(b[0], b[1]) by {
      if q == 0 { assert m >= 0x20; }
      if q == 0xD { assert m < 0x20; }
    }
  }

  lemma EncodeFirst4(c: char, rest: seq<Byte>)
    requires 0x1_0000 <= c as int
    ensures DecodeFirst(EncodeChar(c) + rest) == Some((c, 4))
  {
    var v := c as int;
    var q, h, m, t := v / 0x4_0000, v / 0x1000 % 0x40, v / 0x40 % 0x40, v % 0x40;
    assert v / 0x40 == (v / 0x1000) * 0x40 + m;
    assert v / 0x1000 == q * 0x40 + h;
    assert v == q * 0x4_0000 + h * 0x1000 + m * 0x40 + t;
    var b := EncodeChar(c) + rest;
    assert b[0] == 0xF0 + q && b[1] == 0x80 + h && b[2] == 0x80 + m && b[3] == 0x80 + t;
    assert Second4(b[0], b[1]) by {
      if q == 0 { assert h >= 0x10; }
      if q == 4 { assert h < 0x10; }
    }
  }

  /** The decoder reads back exactly one encoded character, whatever follows it. */
  lemma EncodeFirst(c: char, rest: seq<Byte>)
    ensures DecodeFirst(EncodeChar(c) + rest) == Some((c, |EncodeChar(c)|))
  {
    var v := c as int;
    if v < 0x80 {
    } else if v < 0x800 {
      EncodeFirst2(c, rest);
    } else if v < 0x1_0000 {
      EncodeFirst3(c, rest);
    } else {
      EncodeFirst4(c, rest);
    }
  }

  lemma FirstEncodes2(b: seq<Byte>)
    requires |b| >= 2 && 0xC2 <= b[0] <= 0xDF && Tail(b[1])
    ensures EncodeChar(DecodeFirst(b).value.0) == b[..2]
  {
    var v := (b[0] as int - 0xC0) * 0x40 + (b[1] as int - 0x80);
    assert DecodeFirst(b).value.0 as int == v;
    assert v / 0x40 == b[0] as int - 0xC0 && v % 0x40 == b[1] as int - 0x80;
  }

  lemma FirstEncodes3(b: seq<Byte>)
    requires |b| >= 3 && 0xE0 <= b[0] <= 0xEF && Second3(b[0], b[1]) && Tail(b[2])
    ensures EncodeChar(DecodeFirst(b).value.0) == b[..3]
  {
    var q, m, t := b[0] as int - 0xE0, b[1] as int - 0x80, b[2] as int - 0x80;
    var v := q * 0x1000 + m * 0x40 + t;
    assert DecodeFirst(b).value.0 as int == v;
    assert v / 0x40 == q * 0x40 + m;
    assert v / 0x1000 == q && v / 0x40 % 0x40 == m && v % 0x40 == t;
  }

  lemma FirstEncodes4(b: seq<Byte>)
    requires |b| >= 4 && 0xF0 <= b[0] <= 0xF4 && Second4(b[0], b[1]) && Tail(b[2]) && Tail(b[3])
    ensures EncodeChar(DecodeFirst(b).value.0) == b[..4]
  {
    var q, h, m, t := b[0] as int - 0xF0, b[1] as int - 0x80, b[2] as int - 0x80, b[3] as int - 0x80;
    var v := q * 0x4_0000 + h * 0x1000 + m * 0x40 + t;
    assert DecodeFirst(b).value.0 as int == v;
    assert v / 0x40 == q * 0x1000 + h * 0x40 + m;
    assert v / 0x1000 == q * 0x40 + h;
    assert v / 0x4_0000 == q && v / 0x1000 % 0x40 == h;
    assert v / 0x40 % 0x40 == m && v % 0x40 == t;
  }

  /** A well-formed sequence is the encoding of the character it decodes to: there is one spelling per character. */
  lemma FirstEncodes(b: seq<Byte>)
    requires |b| > 0 && DecodeFirst(b).Some?
    ensures EncodeChar(DecodeFirst(b).value.0) == b[..DecodeFirst(b).value.1]
  {
    if b[0] <= 0x7F {
    } else if b[0] <= 0xDF {
      FirstEncodes2(b);
    } else if b[0] <= 0xEF {
      FirstEncodes3(b);
    } else {
      FirstEncodes4(b);
    }
  }

  // ---------------------------------------------------------------------------
  // Whole strings

  /** Every string survives an encode-decode round trip. */
  lemma {:induction false} DecodeEncode(s: string)
    ensures Decode(Encode(s)) == Some(s)
  {
    if s != [] {
      var head := EncodeChar(s[0]);
      var rest := Encode(s[1..]);
      EncodeFirst(s[0], rest);
      assert (head + rest)[|head|..] == rest;
      DecodeEncode(s[1..]);
      assert [s[0]] + s[1..] == s;
    }
  }

  /** Encoding a character followed by a text lays their encodings end to end. */
  lemma EncodeCons(c: char, t: string, b: seq<Byte>, n: nat)
    requires n <= |b| && EncodeChar(c) == b[..n] && Encode(t) == b[n..]
    ensures Encode([c] + t) == b
  {
    var s := [c] + t;
    assert s[0] == c && s[1..] == t;
    assert b[..n] + b[n..] == b;
  }

  /** Every byte string that decodes is the encoding of its text, so decoding loses nothing. */
  lemma {:induction false} EncodeDecode(b: seq<Byte>)
    requires Decode(b).Some?
    ensures Encode(Decode(b).value) == b
    decreases |b|
  {
    if b != [] {
      var (c, n) := DecodeFirst(b).value;
      var t := Decode(b[n..]).value;
      assert Decode(b).value == [c] + t;
      FirstEncodes(b);
      EncodeDecode(b[n..]);
      EncodeCons(c, t, b, n);
    }
  }

  /**
   * A byte that cannot begin a well-formed sequence (a continuation byte,
   * C0, C1, or F5 to FF) at the front makes the whole text undecodable.
   */
  lemma DecodeRejectsBadLead(b: seq<Byte>)
    requires |b| > 0 && (0x80 <= b[0] < 0xC2 || 0xF5 <= b[0])
    ensures Decode(b) == None
  {
  }
}
