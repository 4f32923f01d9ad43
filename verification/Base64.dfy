/** Standard base64 with canonical padding (section 4 of RFC 4648), the alphabet of every serial line. */
module Base64 {
  import opened Bytes
  import opened Wrappers

  const PAD: byte := 0x3d

  type sextet = x: int | 0 <= x < 64

  function Symbol(v: sextet): byte {
    if v < 26 then v + 65          // A-Z
    else if v < 52 then v + 71     // a-z
    else if v < 62 then v - 4      // 0-9
    else if v == 62 then 43        // +
    else 47                        // /
  }

  function Value(c: byte): Option<sextet> {
    if 65 <= c < 91 then Some(c - 65)
    else if 97 <= c < 123 then Some(c - 71)
    else if 48 <= c < 58 then Some(c + 4)
    else if c == 43 then Some(62)
    else if c == 47 then Some(63)
    else None
  }

  function EncodeQuad(a: byte, b: byte, c: byte): (q: seq<byte>)
    ensures |q| == 4
  {
    [Symbol(a / 4), Symbol(a % 4 * 16 + b / 16), Symbol(b % 16 * 4 + c / 64), Symbol(c % 64)]
  }

  function Encode(data: seq<byte>): seq<byte> {
    if data == [] then []
    else if |data| == 1 then EncodeQuad(data[0], 0, 0)[..2] + [PAD, PAD]
    else if |data| == 2 then EncodeQuad(data[0], data[1], 0)[..3] + [PAD]
    else EncodeQuad(data[0], data[1], data[2]) + Encode(data[3..])
  }

  // The three bytes of four symbols, if all four are in the alphabet.
  function DecodeQuad(q: seq<byte>): (t: Option<seq<byte>>)
    requires |q| == 4
    ensures t.Some? ==> |t.value| == 3
  {
    var a, b, c, d := Value(q[0]), Value(q[1]), Value(q[2]), Value(q[3]);
    if a.Some? && b.Some? && c.Some? && d.Some? then
      Some([a.value * 4 + b.value / 16, b.value % 16 * 16 + c.value / 4, c.value % 4 * 64 + d.value])
    else None
  }

  const ZERO: byte := 65  // the symbol of value 0

  // The last four symbols: padding is allowed here and bits it leaves over must be zero.
  function DecodeLastQuad(q: seq<byte>): Option<seq<byte>>
    requires |q| == 4
  {
    if q[3] != PAD then DecodeQuad(q)
    else if q[2] != PAD then
      match DecodeQuad([q[0], q[1], q[2], ZERO])
      case Some(t) => if t[2] == 0 then Some(t[..2]) else None
      case None => None
    else
      match DecodeQuad([q[0], q[1], ZERO, ZERO])
      case Some(t) => if t[1] == 0 && t[2] == 0 then Some(t[..1]) else None
      case None => None
  }

  function Decode(text: seq<byte>): Option<seq<byte>> {
    if text == [] then Some([])
    else if |text| < 4 then None
    else if |text| == 4 then DecodeLastQuad(text)
    else
      match (DecodeQuad(text[..4]), Decode(text[4..]))
      case (Some(t), Some(rest)) => Some(t + rest)
      case _ => None
  }

  lemma ValueOfSymbol(v: sextet)
    ensures Value(Symbol(v)) == Some(v)
  {
  }

  lemma SplitMerge(x: byte, k: byte, m: byte)
    requires (k == 4 && m == 64) || (k == 16 && m == 16) || (k == 64 && m == 4)
    ensures 0 <= x / k < m && 0 <= x % k < k && x / k * k + x % k == x
  {
  }

  lemma QuadRoundTrip(a: byte, b: byte, c: byte)
    ensures DecodeQuad(EncodeQuad(a, b, c)) == Some([a, b, c])
  {
    SplitMerge(a, 4, 64);
    SplitMerge(b, 16, 16);
    SplitMerge(c, 64, 4);
    var v0, v1, v2, v3 := a / 4, a % 4 * 16 + b / 16, b % 16 * 4 + c / 64, c % 64;
    ValueOfSymbol(v0);
    ValueOfSymbol(v1);
    ValueOfSymbol(v2);
    ValueOfSymbol(v3);
    assert v1 / 16 == a % 4 && v1 % 16 == b / 16;
    assert v2 / 4 == b % 16 && v2 % 4 == c / 64;
  }

  lemma QuadInverse(q: seq<byte>)
    requires |q| == 4 && DecodeQuad(q).Some?
    ensures var t := DecodeQuad(q).value; EncodeQuad(t[0], t[1], t[2]) == q
  {
    var v0, v1, v2, v3 := Value(q[0]).value, Value(q[1]).value, Value(q[2]).value, Value(q[3]).value;
    var t := DecodeQuad(q).value;
    assert t[0] / 4 == v0 && t[0] % 4 == v1 / 16;
    assert t[1] / 16 == v1 % 16 && t[1] % 16 == v2 / 4;
    assert t[2] / 64 == v2 % 4 && t[2] % 64 == v3;
    assert Symbol(v0) == q[0] && Symbol(v1) == q[1] && Symbol(v2) == q[2] && Symbol(v3) == q[3];
  }

  // Decoding inverts encoding.
  lemma {:induction false} DecodeEncode(data: seq<byte>)
    ensures Decode(Encode(data)) == Some(data)
  {
    hide EncodeQuad, DecodeQuad;
    if |data| == 0 {
    } else if |data| == 1 {
      QuadRoundTrip(data[0], 0, 0);
      var q := EncodeQuad(data[0], 0, 0);
      ZeroSymbols(data[0], 0);
      assert [q[0], q[1], ZERO, ZERO] == q;
      assert DecodeQuad(q).value[..1] == data;
    } else if |data| == 2 {
      QuadRoundTrip(data[0], data[1], 0);
      var q := EncodeQuad(data[0], data[1], 0);
      ZeroSymbols(data[0], data[1]);
      NoPad(data[0], data[1], 0);
      assert [q[0], q[1], q[2], ZERO] == q;
      assert DecodeQuad(q).value[..2] == data;
    } else {
      var q, head, rest := EncodeQuad(data[0], data[1], data[2]), [data[0], data[1], data[2]], data[3..];
      QuadRoundTrip(data[0], data[1], data[2]);
      DecodeEncode(rest);
      assert Encode(data)[..4] == q && Encode(data)[4..] == Encode(rest);
      assert head + rest == data;
      if rest == [] {
        NoPad(data[0], data[1], data[2]);
        assert Encode(data) == q && data == head;
      } else {
        EncodedLength(rest);
      }
    }
  }

  lemma ZeroSymbols(a: byte, b: byte)
    ensures EncodeQuad(a, 0, 0)[2] == ZERO && EncodeQuad(a, 0, 0)[3] == ZERO && EncodeQuad(a, b, 0)[3] == ZERO
  {
  }

  // A full quad has no padding.
  lemma NoPad(a: byte, b: byte, c: byte)
    ensures EncodeQuad(a, b, c)[2] != PAD && EncodeQuad(a, b, c)[3] != PAD
  {
    ValueOfSymbol(b % 16 * 4 + c / 64);
    ValueOfSymbol(c % 64);
  }

  lemma LastQuadInverse(q: seq<byte>)
    requires |q| == 4 && DecodeLastQuad(q).Some?
    ensures Encode(DecodeLastQuad(q).value) == q
  {
    if q[3] != PAD {
      QuadInverse(q);
    } else if q[2] != PAD {
      QuadInverse([q[0], q[1], q[2], ZERO]);
    } else {
      QuadInverse([q[0], q[1], ZERO, ZERO]);
    }
  }

  // Only the canonical encoding of some bytes is accepted: decoding is injective.
  lemma {:induction false} EncodeDecode(text: seq<byte>)
    requires Decode(text).Some?
    ensures Encode(Decode(text).value) == text
  {
    if |text| == 0 {
    } else if |text| == 4 {
      LastQuadInverse(text);
    } else {
      var t, rest := DecodeQuad(text[..4]).value, Decode(text[4..]).value;
      QuadInverse(text[..4]);
      EncodeDecode(text[4..]);
      assert (t + rest)[3..] == rest;
      assert Encode(t + rest) == EncodeQuad(t[0], t[1], t[2]) + Encode(rest);
    }
  }

  lemma {:induction false} EncodedLength(data: seq<byte>)
    ensures |Encode(data)| == (|data| + 2) / 3 * 4
  {
    if |data| >= 3 {
      EncodedLength(data[3..]);
    }
  }

  // A text that decodes at all has a length divisible by four.
  lemma {:induction false} DecodedLength(text: seq<byte>)
    requires Decode(text).Some?
    ensures |text| % 4 == 0 && |Decode(text).value| <= |text| / 4 * 3
  {
    if |text| > 4 {
      DecodedLength(text[4..]);
    }
  }

  // Cutting the bytes after a multiple of three cuts the text.
  lemma {:induction false} EncodeAppend(a: seq<byte>, b: seq<byte>)
    requires |a| % 3 == 0
    ensures Encode(a + b) == Encode(a) + Encode(b)
  {
    hide EncodeQuad;
    if a == [] {
      assert a + b == b;
    } else {
      EncodeAppend(a[3..], b);
      assert (a + b)[3..] == a[3..] + b;
      assert b == [] ==> a + b == a;
    }
  }

  predicate IsText(s: seq<byte>) {
    forall i :: 0 <= i < |s| ==> s[i] == PAD || Value(s[i]).Some?
  }

  lemma {:induction false} EncodeIsText(data: seq<byte>)
    ensures IsText(Encode(data))
  {
    forall v: sextet { ValueOfSymbol(v); }
    if |data| >= 3 {
      EncodeIsText(data[3..]);
    }
  }

  // The encoding against the table of the standard.

  const UPPER: string := "ABCDEFGHIJKLMNOPQRSTUVWXYZ"
  const LOWER: string := "abcdefghijklmnopqrstuvwxyz"
  const OTHER: string := "0123456789+/"
  const TABLE: string := UPPER + LOWER + OTHER

  // The symbol of some value in the table.
  function Char(i: nat): int
    requires i < 64
  {
    TABLE[i] as int
  }

  lemma SymbolIsInTable(v: sextet)
    ensures |TABLE| == 64 && Symbol(v) == Char(v)
  {
    UpperCase(v);
    LowerCase(v - 26);
    Others(v - 52);
  }

  lemma UpperCase(i: int)
    ensures 0 <= i < 26 ==> UPPER[i] as int == 65 + i
  {
  }

  lemma LowerCase(i: int)
    ensures 0 <= i < 26 ==> LOWER[i] as int == 97 + i
  {
  }

  lemma Others(i: int)
    ensures 0 <= i < 12 ==> OTHER[i] as int == if i < 10 then 48 + i else if i == 10 then 43 else 47
  {
  }

  // Four symbols stand for the number that three bytes make, most significant first; the padded ones for
  // two bytes or one, with zeros below.
  lemma QuadIsANumber(a: byte, b: byte, c: byte) returns (i: nat, j: nat, k: nat, l: nat)
    ensures i < 64 && j < 64 && k < 64 && l < 64
    ensures Encode([a, b, c]) == [Char(i), Char(j), Char(k), Char(l)]
    ensures 0x4_0000 * i + 0x1000 * j + 0x40 * k + l == 0x1_0000 * a + 0x100 * b + c
  {
    hide Symbol, Char;
    i, j, k, l := a / 4, a % 4 * 16 + b / 16, b % 16 * 4 + c / 64, c % 64;
    SymbolIsInTable(i);
    SymbolIsInTable(j);
    SymbolIsInTable(k);
    SymbolIsInTable(l);
    assert [a, b, c][3..] == [] && Encode([]) == [];
  }

  lemma PaddedQuadsAreNumbers(a: byte, b: byte) returns (i: nat, j: nat, k: nat, l: nat)
    ensures i < 64 && j < 64 && k < 64 && l < 64
    ensures Encode([a, b]) == [Char(i), Char(j), Char(k), '=' as int] && 0x1000 * i + 0x40 * j + k == 4 * (0x100 * a + b)
    ensures Encode([a]) == [Char(i), Char(l), '=' as int, '=' as int] && 0x40 * i + l == 0x10 * a
  {
    hide Symbol, Char;
    i, j, k, l := a / 4, a % 4 * 16 + b / 16, b % 16 * 4, a % 4 * 16;
    SymbolIsInTable(i);
    SymbolIsInTable(j);
    SymbolIsInTable(k);
    SymbolIsInTable(l);
  }
}
