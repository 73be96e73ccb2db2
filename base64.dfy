/**
 * The base64 encoding of section 4 of RFC 4648: the standard alphabet, groups
 * of three bytes written as four characters, and "=" padding for a final
 * group of one or two bytes. `Decode` is the strict decoder of the same
 * section: it takes only canonical text (section 3.5: pad bits zero).
 */
module Base64 {
  import opened Wrappers
  import opened Octets

  /** A 6-bit group. */
  type Index = x: int | 0 <= x < 64

  /** The alphabet of Table 1 of RFC 4648. */
  function Sym(v: Index): char
  {
    if v < 26 then ('A' as int + v) as char
    else if v < 52 then ('a' as int + v - 26) as char
    else if v < 62 then ('0' as int + v - 52) as char
    else if v == 62 then '+'
    else '/'
  }

  /** The value of an alphabet character; None for anything else, "=" included. */
  function Val(c: char): Option<Index>
  {
    if 'A' <= c <= 'Z' then Some(c as int - 'A' as int)
    else if 'a' <= c <= 'z' then Some(c as int - 'a' as int + 26)
    else if '0' <= c <= '9' then Some(c as int - '0' as int + 52)
    else if c == '+' then Some(62)
    else if c == '/' then Some(63)
    else None
  }

  function Encode3(a: Byte, b: Byte, c: Byte): string
  {
    [Sym(a / 4), Sym(a % 4 * 16 + b / 16), Sym(b % 16 * 4 + c / 64), Sym(c % 64)]
  }

  function Encode2(a: Byte, b: Byte): string
  {
    [Sym(a / 4), Sym(a % 4 * 16 + b / 16), Sym(b % 16 * 4), '=']
  }

  function Encode1(a: Byte): string
  {
    [Sym(a / 4), Sym(a % 4 * 16), '=', '=']
  }

  /** `base64.b64encode(data).decode("ascii")`. */
  function Encode(data: seq<Byte>): (r: string)
    ensures |r| == 4 * ((|data| + 2) / 3)
    decreases |data|
  {
    if |data| == 0 then ""
    else if |data| == 1 then Encode1(data[0])
    else if |data| == 2 then Encode2(data[0], data[1])
    else Encode3(data[0], data[1], data[2]) + Encode(data[3..])
  }

  /** One group of four characters; only the final group (`last`) may be padded. */
  function DecodeQuad(q: string, last: bool): (r: Option<seq<Byte>>)
    requires |q| == 4
    ensures r.Some? ==> 1 <= |r.value| <= 3 && (|r.value| < 3 ==> last)
  {
    if Val(q[0]).None? || Val(q[1]).None? then None
    else
      var i0, i1 := Val(q[0]).value, Val(q[1]).value;
      if last && q[2] == '=' && q[3] == '=' then
        if i1 % 16 == 0 then Some([i0 * 4 + i1 / 16]) else None
      else if Val(q[2]).None? then None
      else
        var i2 := Val(q[2]).value;
        if last && q[3] == '=' then
          if i2 % 4 == 0 then Some([i0 * 4 + i1 / 16, i1 % 16 * 16 + i2 / 4]) else None
        else if Val(q[3]).None? then None
        else
          var i3 := Val(q[3]).value;
          Some([i0 * 4 + i1 / 16, i1 % 16 * 16 + i2 / 4, i2 % 4 * 64 + i3])
  }

  function Decode(s: string): Option<seq<Byte>>
    decreases |s|
  {
    if s == [] then Some([])
    else if |s| < 4 then None
    else match DecodeQuad(s[..4], |s| == 4)
      case None => None
      case Some(g) =>
        match Decode(s[4..])
        case None => None
        case Some(t) => Some(g + t)
  }

  // ---------------------------------------------------------------------------
  // The alphabet

  lemma ValSym(v: Index)
    ensures Val(Sym(v)) == Some(v)
  {
  }

  lemma SymVal(c: char)
    requires Val(c).Some?
    ensures Sym(Val(c).value) == c
  {
  }

  /** Encoded text is ASCII alphabet characters and padding, so `.decode("ascii")` cannot fail. */
  lemma {:induction false} EncodeAlphabet(data: seq<Byte>)
    ensures forall k :: 0 <= k < |Encode(data)| ==>
              Encode(data)[k] as int < 0x80 && (Val(Encode(data)[k]).Some? || Encode(data)[k] == '=')
    decreases |data|
  {
    forall v: Index ensures Sym(v) as int < 0x80 && Val(Sym(v)).Some? {
      ValSym(v);
    }
    if |data| >= 3 {
      EncodeAlphabet(data[3..]);
      var r := Encode(data);
      var head := Encode3(data[0], data[1], data[2]);
      forall k | 0 <= k < |r| ensures r[k] as int < 0x80 && (Val(r[k]).Some? || r[k] == '=') {
        if k >= 4 { assert r[k] == Encode(data[3..])[k - 4]; }
      }
    }
  }

  // ---------------------------------------------------------------------------
  // One group

  lemma Group3(a: Byte, b: Byte, c: Byte, last: bool)
    ensures DecodeQuad(Encode3(a, b, c), last) == Some([a, b, c])
  {
    var q := Encode3(a, b, c);
    ValSym(a / 4); ValSym(a % 4 * 16 + b / 16); ValSym(b % 16 * 4 + c / 64); ValSym(c % 64);
    assert (a % 4 * 16 + b / 16) / 16 == a % 4 && (a % 4 * 16 + b / 16) % 16 == b / 16;
    assert (b % 16 * 4 + c / 64) / 4 == b % 16 && (b % 16 * 4 + c / 64) % 4 == c / 64;
  }

  lemma Group2(a: Byte, b: Byte)
    ensures DecodeQuad(Encode2(a, b), true) == Some([a, b])
  {
    ValSym(a / 4); ValSym(a % 4 * 16 + b / 16); ValSym(b % 16 * 4);
    assert (a % 4 * 16 + b / 16) / 16 == a % 4 && (a % 4 * 16 + b / 16) % 16 == b / 16;
    assert (b % 16 * 4) / 4 == b % 16 && (b % 16 * 4) % 4 == 0;
  }

  lemma Group1(a: Byte)
    ensures DecodeQuad(Encode1(a), true) == Some([a])
  {
    ValSym(a / 4); ValSym(a % 4 * 16);
    assert (a % 4 * 16) / 16 == a % 4 && (a % 4 * 16) % 16 == 0;
  }

  /** The encoding of the group a quad decodes to is that quad: canonical text has one spelling. */
  lemma QuadCanonical(q: string, last: bool)
    requires |q| == 4 && DecodeQuad(q, last).Some?
    ensures var g := DecodeQuad(q, last).value;
            q == if |g| == 1 then Encode1(g[0]) else if |g| == 2 then Encode2(g[0], g[1]) else Encode3(g[0], g[1], g[2])
  {
    var g := DecodeQuad(q, last).value;
    var i0, i1 := Val(q[0]).value, Val(q[1]).value;
    SymVal(q[0]); SymVal(q[1]);
    assert g[0] / 4 == i0;
    if |g| == 1 {
      assert g[0] % 4 * 16 == i1;
    } else {
      var i2 := Val(q[2]).value;
      SymVal(q[2]);
      assert g[0] % 4 * 16 + g[1] / 16 == i1;
      if |g| == 2 {
        assert g[1] % 16 * 4 == i2;
      } else {
        var i3 := Val(q[3]).value;
        SymVal(q[3]);
        assert g[1] % 16 * 4 + g[2] / 64 == i2;
        assert g[2] % 64 == i3;
      }
    }
  }

  // ---------------------------------------------------------------------------
  // Round trips

  lemma DecodeGroup(s: string, g: seq<Byte>, t: seq<Byte>)
    requires |s| >= 4 && DecodeQuad(s[..4], |s| == 4) == Some(g) && Decode(s[4..]) == Some(t)
    ensures Decode(s) == Some(g + t)
  {
  }

  lemma DecodeEncode1(a: Byte)
    ensures Decode(Encode1(a)) == Some([a])
  {
    var r := Encode1(a);
    assert r[..4] == r && r[4..] == [];
    Group1(a);
    DecodeGroup(r, [a], []);
    assert [a] + [] == [a];
  }

  lemma DecodeEncode2(a: Byte, b: Byte)
    ensures Decode(Encode2(a, b)) == Some([a, b])
  {
    var r := Encode2(a, b);
    assert r[..4] == r && r[4..] == [];
    Group2(a, b);
    DecodeGroup(r, [a, b], []);
    assert [a, b] + [] == [a, b];
  }

  lemma DecodeEncodeShort(data: seq<Byte>)
    requires 1 <= |data| <= 2
    ensures Decode(Encode(data)) == Some(data)
  {
    if |data| == 1 {
      DecodeEncode1(data[0]);
      assert [data[0]] == data;
    } else {
      DecodeEncode2(data[0], data[1]);
      assert [data[0], data[1]] == data;
    }
  }

  lemma SplitThree(data: seq<Byte>)
    requires |data| >= 3
    ensures [data[0], data[1], data[2]] + data[3..] == data
  {
  }

  lemma DecodeEncodeLong(data: seq<Byte>)
    requires |data| >= 3 && Decode(Encode(data[3..])) == Some(data[3..])
    ensures Decode(Encode(data)) == Some(data)
  {
    var r := Encode(data);
    var head := Encode3(data[0], data[1], data[2]);
    var tail := Encode(data[3..]);
    assert r == head + tail;
    assert r[..4] == head && r[4..] == tail;
    Group3(data[0], data[1], data[2], |r| == 4);
    DecodeGroup(r, [data[0], data[1], data[2]], data[3..]);
    SplitThree(data);
  }

  /** Decoding the encoding of any byte string gives back exactly those bytes. */
  lemma {:induction false} DecodeEncode(data: seq<Byte>)
    ensures Decode(Encode(data)) == Some(data)
    decreases |data|
  {
    if 1 <= |data| <= 2 {
      DecodeEncodeShort(data);
    } else if |data| >= 3 {
      DecodeEncode(data[3..]);
      DecodeEncodeLong(data);
    }
  }

  /** Any text that decodes is the encoding of what it decodes to. */
  lemma {:induction false} EncodeDecode(s: string)
    requires Decode(s).Some?
    ensures Encode(Decode(s).value) == s
    decreases |s|
  {
    if s != [] {
      var last := |s| == 4;
      var g := DecodeQuad(s[..4], last).value;
      var t := Decode(s[4..]).value;
      QuadCanonical(s[..4], last);
      EncodeDecode(s[4..]);
      if last {
        assert t == [] && g + t == g;
        assert s[..4] == s;
      } else {
        var b := g + t;
        assert |g| == 3 && b[..3] == g && b[3..] == t;
        assert s[..4] + s[4..] == s;
      }
    }
  }
}
