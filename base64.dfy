/** The base 64 encoding of section 4 of RFC 4648, as `base64.b64encode`
    computes it, with the matching decoder. */
module Base64 {
  import opened Basics

  type Byte = x: int | 0 <= x < 256

  /** The 6-bit values of the base 64 alphabet (Table 1 of RFC 4648). */
  type Sextet = x: int | 0 <= x < 64

  const Pad: char := '='

  function Symbol(v: Sextet): char
  {
    if v < 26 then ('A' as int + v) as char
    else if v < 52 then ('a' as int + (v - 26)) as char
    else if v < 62 then ('0' as int + (v - 52)) as char
    else if v == 62 then '+'
    else '/'
  }

  predicate IsSymbol(c: char)
  {
    'A' <= c <= 'Z' || 'a' <= c <= 'z' || '0' <= c <= '9' || c == '+' || c == '/'
  }

  function SymbolValue(c: char): Sextet
    requires IsSymbol(c)
  {
    if 'A' <= c <= 'Z' then c as int - 'A' as int
    else if 'a' <= c <= 'z' then c as int - 'a' as int + 26
    else if '0' <= c <= '9' then c as int - '0' as int + 52
    else if c == '+' then 62
    else 63
  }

  lemma SymbolRoundTrip(v: Sextet)
    ensures IsSymbol(Symbol(v)) && SymbolValue(Symbol(v)) == v
  {
  }

  /** Three bytes, the first two or the first one (the rest read as zero
      bits), spread over four symbols; the missing ones become padding. */
  function Quantum(b0: Byte, b1: Byte, b2: Byte, n: int): string
    requires 1 <= n <= 3
  {
    var c0 := Symbol(b0 / 4);
    var c1 := Symbol((b0 % 4) * 16 + b1 / 16);
    var c2 := Symbol((b1 % 16) * 4 + b2 / 64);
    var c3 := Symbol(b2 % 64);
    if n == 3 then [c0, c1, c2, c3]
    else if n == 2 then [c0, c1, c2, Pad]
    else [c0, c1, Pad, Pad]
  }

  /** The encoding of a byte string. */
  function Encode(b: seq<Byte>): (r: string)
    ensures |r| == 4 * ((|b| + 2) / 3)
    decreases |b|
  {
    if |b| == 0 then ""
    else if |b| == 1 then Quantum(b[0], 0, 0, 1)
    else if |b| == 2 then Quantum(b[0], b[1], 0, 2)
    else Quantum(b[0], b[1], b[2], 3) + Encode(b[3..])
  }

  /** The bytes of one 4-symbol group; `None` for a malformed group. A
      padded group is accepted only as the last one. */
  function DecodeQuantum(q: string, last: bool): Option<seq<Byte>>
    requires |q| == 4
  {
    if !IsSymbol(q[0]) || !IsSymbol(q[1]) then None
    else
      var v0, v1 := SymbolValue(q[0]), SymbolValue(q[1]);
      var b0 := v0 * 4 + v1 / 16;
      if q[2] == Pad && q[3] == Pad then
        if last then Some([b0]) else None
      else if !IsSymbol(q[2]) then None
      else
        var v2 := SymbolValue(q[2]);
        var b1 := (v1 % 16) * 16 + v2 / 4;
        if q[3] == Pad then
          if last then Some([b0, b1]) else None
        else if !IsSymbol(q[3]) then None
        else
          var v3 := SymbolValue(q[3]);
          Some([b0, b1, (v2 % 4) * 64 + v3])
  }

  /** The decoding of an encoded string; `None` when `s` is not one. */
  function Decode(s: string): Option<seq<Byte>>
    decreases |s|
  {
    if s == "" then Some([])
    else if |s| < 4 then None
    else
      var head :- DecodeQuantum(s[..4], |s| == 4);
      var tail :- Decode(s[4..]);
      Some(head + tail)
  }

  lemma FirstByte(b0: Byte, b1: Byte)
    ensures (b0 / 4) * 4 + ((b0 % 4) * 16 + b1 / 16) / 16 == b0
  {
    assert ((b0 % 4) * 16 + b1 / 16) / 16 == b0 % 4;
  }

  lemma SecondByte(b0: Byte, b1: Byte, b2: Byte)
    ensures (((b0 % 4) * 16 + b1 / 16) % 16) * 16 + ((b1 % 16) * 4 + b2 / 64) / 4 == b1
  {
    assert ((b0 % 4) * 16 + b1 / 16) % 16 == b1 / 16;
    assert ((b1 % 16) * 4 + b2 / 64) / 4 == b1 % 16;
  }

  lemma ThirdByte(b1: Byte, b2: Byte)
    ensures (((b1 % 16) * 4 + b2 / 64) % 4) * 64 + b2 % 64 == b2
  {
    assert ((b1 % 16) * 4 + b2 / 64) % 4 == b2 / 64;
  }

  lemma FullQuantum(b0: Byte, b1: Byte, b2: Byte, last: bool)
    ensures DecodeQuantum(Quantum(b0, b1, b2, 3), last) == Some([b0, b1, b2])
  {
    var v0, v1, v2, v3 := b0 / 4, (b0 % 4) * 16 + b1 / 16, (b1 % 16) * 4 + b2 / 64, b2 % 64;
    SymbolRoundTrip(v0);
    SymbolRoundTrip(v1);
    SymbolRoundTrip(v2);
    SymbolRoundTrip(v3);
    FirstByte(b0, b1);
    SecondByte(b0, b1, b2);
    ThirdByte(b1, b2);
    assert Quantum(b0, b1, b2, 3) == [Symbol(v0), Symbol(v1), Symbol(v2), Symbol(v3)];
  }

  lemma TwoByteQuantum(b0: Byte, b1: Byte, b2: Byte)
    ensures DecodeQuantum(Quantum(b0, b1, b2, 2), true) == Some([b0, b1])
  {
    var v0, v1, v2 := b0 / 4, (b0 % 4) * 16 + b1 / 16, (b1 % 16) * 4 + b2 / 64;
    SymbolRoundTrip(v0);
    SymbolRoundTrip(v1);
    SymbolRoundTrip(v2);
    FirstByte(b0, b1);
    SecondByte(b0, b1, b2);
    assert Quantum(b0, b1, b2, 2) == [Symbol(v0), Symbol(v1), Symbol(v2), Pad];
  }

  lemma OneByteQuantum(b0: Byte, b1: Byte, b2: Byte)
    ensures DecodeQuantum(Quantum(b0, b1, b2, 1), true) == Some([b0])
  {
    var v0, v1 := b0 / 4, (b0 % 4) * 16 + b1 / 16;
    SymbolRoundTrip(v0);
    SymbolRoundTrip(v1);
    FirstByte(b0, b1);
    assert Quantum(b0, b1, b2, 1) == [Symbol(v0), Symbol(v1), Pad, Pad];
  }

  /** Each group decodes to the bytes it was made from. */
  lemma QuantumRoundTrip(b0: Byte, b1: Byte, b2: Byte, n: int, last: bool)
    requires 1 <= n <= 3
    requires n < 3 ==> last
    ensures DecodeQuantum(Quantum(b0, b1, b2, n), last)
         == Some(if n == 3 then [b0, b1, b2] else if n == 2 then [b0, b1] else [b0])
  {
    if n == 3 {
      FullQuantum(b0, b1, b2, last);
    } else if n == 2 {
      TwoByteQuantum(b0, b1, b2);
    } else {
      OneByteQuantum(b0, b1, b2);
    }
  }

  lemma DecodeCons(q: string, rest: string, h: seq<Byte>, t: seq<Byte>)
    requires |q| == 4
    requires DecodeQuantum(q, rest == "") == Some(h) && Decode(rest) == Some(t)
    ensures Decode(q + rest) == Some(h + t)
  {
    var s := q + rest;
    assert s[..4] == q && s[4..] == rest;
  }

  lemma RoundTripOne(b0: Byte)
    ensures Decode(Encode([b0])) == Some([b0])
  {
    var q := Quantum(b0, 0, 0, 1);
    assert Encode([b0]) == q + "";
    OneByteQuantum(b0, 0, 0);
    DecodeCons(q, "", [b0], []);
    assert [b0] + [] == [b0];
  }

  lemma RoundTripTwo(b0: Byte, b1: Byte)
    ensures Decode(Encode([b0, b1])) == Some([b0, b1])
  {
    var q := Quantum(b0, b1, 0, 2);
    assert Encode([b0, b1]) == q + "";
    TwoByteQuantum(b0, b1, 0);
    DecodeCons(q, "", [b0, b1], []);
    assert [b0, b1] + [] == [b0, b1];
  }

  lemma RoundTripShort(b: seq<Byte>)
    requires 1 <= |b| <= 2
    ensures Decode(Encode(b)) == Some(b)
  {
    if |b| == 1 {
      assert b == [b[0]];
      RoundTripOne(b[0]);
    } else {
      assert b == [b[0], b[1]];
      RoundTripTwo(b[0], b[1]);
    }
  }

  lemma EncodeStep(b: seq<Byte>)
    requires |b| >= 3
    ensures Encode(b) == Quantum(b[0], b[1], b[2], 3) + Encode(b[3..])
  {
  }

  /** One full quantum in front of an input that round-trips. */
  lemma RoundTripStep(b0: Byte, b1: Byte, b2: Byte, t: seq<Byte>)
    requires Decode(Encode(t)) == Some(t)
    ensures Decode(Quantum(b0, b1, b2, 3) + Encode(t)) == Some([b0, b1, b2] + t)
  {
    var rest := Encode(t);
    QuantumRoundTrip(b0, b1, b2, 3, rest == "");
    DecodeCons(Quantum(b0, b1, b2, 3), rest, [b0, b1, b2], t);
  }

  lemma FirstThree(b: seq<Byte>)
    requires |b| >= 3
    ensures b == [b[0], b[1], b[2]] + b[3..]
  {
  }

  lemma RoundTripLong(b: seq<Byte>)
    requires |b| >= 3 && Decode(Encode(b[3..])) == Some(b[3..])
    ensures Decode(Encode(b)) == Some(b)
  {
    FirstThree(b);
    EncodeStep(b);
    RoundTripStep(b[0], b[1], b[2], b[3..]);
  }

  /** Decoding undoes encoding. */
  lemma {:induction false} RoundTrip(b: seq<Byte>)
    ensures Decode(Encode(b)) == Some(b)
    decreases |b|
  {
    if 1 <= |b| <= 2 {
      RoundTripShort(b);
    } else if |b| >= 3 {
      RoundTrip(b[3..]);
      RoundTripLong(b);
    }
  }

  lemma FooQuantum()
    ensures Quantum(102, 111, 111, 3) == "Zm9v"
  {
    assert Symbol(25) == 'Z' && Symbol(38) == 'm' && Symbol(61) == '9' && Symbol(47) == 'v';
  }

  lemma BarQuantum()
    ensures Quantum(98, 97, 114, 3) == "YmFy"
  {
    assert Symbol(24) == 'Y' && Symbol(38) == 'm' && Symbol(5) == 'F' && Symbol(50) == 'y';
  }

  /** The test vectors of section 10 of RFC 4648 for "f", "fo" and "foo". */
  lemma ShortVectors()
    ensures Encode([102]) == "Zg=="
    ensures Encode([102, 111]) == "Zm8="
    ensures Encode([102, 111, 111]) == "Zm9v"
  {
    assert Symbol(25) == 'Z' && Symbol(32) == 'g';
    assert Symbol(38) == 'm' && Symbol(60) == '8';
    FooQuantum();
    assert Encode([102, 111, 111]) == Quantum(102, 111, 111, 3) + Encode([]);
  }

  /** The test vector of section 10 of RFC 4648 for "foobar". */
  lemma FoobarVector()
    ensures Encode([102, 111, 111, 98, 97, 114]) == "Zm9vYmFy"
  {
    var b: seq<Byte> := [102, 111, 111, 98, 97, 114];
    var t: seq<Byte> := [98, 97, 114];
    EncodeStep(b);
    assert b[3..] == t;
    EncodeStep(t);
    assert t[3..] == [];
    FooQuantum();
    BarQuantum();
  }

  /** Encoded text uses only the alphabet and the pad character. */
  lemma {:induction false} EncodeAlphabet(b: seq<Byte>)
    ensures forall i :: 0 <= i < |Encode(b)| ==> IsSymbol(Encode(b)[i]) || Encode(b)[i] == Pad
    decreases |b|
  {
    if |b| >= 3 {
      EncodeAlphabet(b[3..]);
      var q := Quantum(b[0], b[1], b[2], 3);
      SymbolRoundTrip(b[0] / 4);
      SymbolRoundTrip((b[0] % 4) * 16 + b[1] / 16);
      SymbolRoundTrip((b[1] % 16) * 4 + b[2] / 64);
      SymbolRoundTrip(b[2] % 64);
      assert Encode(b) == q + Encode(b[3..]);
    } else if |b| == 2 {
      SymbolRoundTrip(b[0] / 4);
      SymbolRoundTrip((b[0] % 4) * 16 + b[1] / 16);
      SymbolRoundTrip((b[1] % 16) * 4);
    } else if |b| == 1 {
      SymbolRoundTrip(b[0] / 4);
      SymbolRoundTrip((b[0] % 4) * 16);
    }
  }
}
