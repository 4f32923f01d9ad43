/**
 The checksum of a frame: CRC-16/XMODEM, that is, polynomial 0x1021, initial value 0, most
 significant bit first, no reflection, no final xor. Bits are sequences, most significant first.
 */
module Crc {
  import opened Bytes

  // Bytes as bits.

  function ToBits(n: nat, width: nat): (bits: seq<bool>)
    ensures |bits| == width
  {
    if width == 0 then [] else ToBits(n / 2, width - 1) + [n % 2 == 1]
  }

  function Pow2(n: nat): nat {
    if n == 0 then 1 else 2 * Pow2(n - 1)
  }

  function FromBits(bits: seq<bool>): (n: nat)
    ensures n < Pow2(|bits|)
  {
    if bits == [] then 0
    else 2 * FromBits(bits[..|bits| - 1]) + if bits[|bits| - 1] then 1 else 0
  }

  lemma {:induction false} ToBitsInverse(bits: seq<bool>)
    ensures ToBits(FromBits(bits), |bits|) == bits
  {
    if bits != [] {
      ToBitsInverse(bits[..|bits| - 1]);
    }
  }

  lemma {:induction false} FromBitsInverse(n: nat, width: nat)
    requires n < Pow2(width)
    ensures FromBits(ToBits(n, width)) == n
  {
    if width > 0 {
      FromBitsInverse(n / 2, width - 1);
      assert ToBits(n, width)[..width - 1] == ToBits(n / 2, width - 1);
    }
  }

  lemma Pow2Of8()
    ensures Pow2(8) == 0x100
  {
    assert Pow2(4) == 16;
    assert Pow2(5) == 32 && Pow2(6) == 64 && Pow2(7) == 128;
  }

  function ByteOfBits(bits: seq<bool>): (b: byte)
    requires |bits| == 8
    ensures ToBits(b, 8) == bits
  {
    ToBitsInverse(bits);
    Pow2Of8();
    FromBits(bits)
  }

  lemma SameBits(a: byte, b: byte)
    requires ToBits(a, 8) == ToBits(b, 8)
    ensures a == b
  {
    Pow2Of8();
    FromBitsInverse(a, 8);
    FromBitsInverse(b, 8);
  }

  function Bits(data: seq<byte>): (bits: seq<bool>)
    ensures |bits| == 8 * |data|
  {
    if data == [] then [] else ToBits(data[0], 8) + Bits(data[1..])
  }

  // The register.

  type Register = r: seq<bool> | |r| == 16 witness seq(16, i => false)

  function Zero(): Register {
    seq(16, i => false)
  }

  // x^12 + x^5 + 1, the low part of the polynomial.
  function Polynomial(): Register {
    seq(16, i => i == 3 || i == 10 || i == 15)
  }

  function Xor(a: Register, b: Register): Register {
    seq(16, i requires 0 <= i < 16 => a[i] != b[i])
  }

  function Shift(r: Register): Register {
    if r[0] then Xor(r[1..] + [false], Polynomial()) else r[1..] + [false]
  }

  // One bit of the message enters at the top of the register.
  function Step(r: Register, bit: bool): Register {
    Shift([r[0] != bit] + r[1..])
  }

  function Update(r: Register, bits: seq<bool>): Register
    decreases bits
  {
    if bits == [] then r else Update(Step(r, bits[0]), bits[1..])
  }

  function Finalize(r: Register): (c: seq<byte>)
    ensures |c| == 2
  {
    [ByteOfBits(r[..8]), ByteOfBits(r[8..])]
  }

  // The two bytes that follow the data in a frame.
  function Checksum(data: seq<byte>): (c: seq<byte>)
    ensures |c| == 2
  {
    Finalize(Update(Zero(), Bits(data)))
  }

  // A digest fed in two parts is the checksum of the whole.
  lemma ChecksumInParts(a: seq<byte>, b: seq<byte>)
    ensures Finalize(Update(Update(Zero(), Bits(a)), Bits(b))) == Checksum(a + b)
  {
    BitsAppend(a, b);
    UpdateAppend(Zero(), Bits(a), Bits(b));
  }

  // Feeding piece by piece is feeding at once.

  lemma {:induction false} UpdateAppend(r: Register, a: seq<bool>, b: seq<bool>)
    ensures Update(r, a + b) == Update(Update(r, a), b)
    decreases a
  {
    if a == [] {
      assert a + b == b;
    } else {
      UpdateAppend(Step(r, a[0]), a[1..], b);
      assert (a + b)[1..] == a[1..] + b;
    }
  }

  lemma {:induction false} BitsAppend(a: seq<byte>, b: seq<byte>)
    ensures Bits(a + b) == Bits(a) + Bits(b)
  {
    if a == [] {
      assert a + b == b;
    } else {
      BitsAppend(a[1..], b);
      assert (a + b)[1..] == a[1..] + b;
    }
  }

  // Sixteen bits at once.

  function ShiftN(r: Register, n: nat): Register
    decreases n
  {
    if n == 0 then r else ShiftN(Shift(r), n - 1)
  }

  lemma ShiftLinear(a: Register, b: Register)
    ensures Shift(Xor(a, b)) == Xor(Shift(a), Shift(b))
  {
  }

  lemma {:induction false} ShiftNLinear(a: Register, b: Register, n: nat)
    ensures ShiftN(Xor(a, b), n) == Xor(ShiftN(a, n), ShiftN(b, n))
    decreases n
  {
    if n > 0 {
      ShiftLinear(a, b);
      ShiftNLinear(Shift(a), Shift(b), n - 1);
    }
  }

  lemma ShiftInjective(a: Register, b: Register)
    requires Shift(a) == Shift(b)
    ensures a == b
  {
    assert Shift(a)[15] == a[0] && Shift(b)[15] == b[0];
    forall i | 1 <= i < 16
      ensures a[i] == b[i]
    {
      assert Shift(a)[i - 1] == (a[i] != (a[0] && Polynomial()[i - 1]));
      assert Shift(b)[i - 1] == (b[i] != (b[0] && Polynomial()[i - 1]));
    }
  }

  lemma {:induction false} ShiftNInjective(a: Register, b: Register, n: nat)
    requires ShiftN(a, n) == ShiftN(b, n)
    ensures a == b
    decreases n
  {
    if n > 0 {
      ShiftNInjective(Shift(a), Shift(b), n - 1);
      ShiftInjective(a, b);
    }
  }

  // Up to sixteen bits, padded with zeros below.
  function Pad(bits: seq<bool>): Register
    requires |bits| <= 16
  {
    bits + seq(16 - |bits|, i => false)
  }

  // Feeding up to sixteen bits amounts to adding them at the top and shifting.
  lemma {:induction false} UpdateWord(r: Register, bits: seq<bool>)
    requires |bits| <= 16
    ensures Update(r, bits) == ShiftN(Xor(r, Pad(bits)), |bits|)
    decreases bits
  {
    if bits == [] {
      assert Xor(r, Pad([])) == r;
    } else {
      var top := [r[0] != bits[0]] + r[1..];
      var below := [false] + Pad(bits)[1..];
      UpdateWord(Step(r, bits[0]), bits[1..]);
      assert Xor(r, Pad(bits)) == Xor(top, below);
      ShiftLinear(top, below);
      assert Shift(below) == Pad(bits[1..]);
    }
  }

  lemma UpdateWordInjective(r: Register, a: seq<bool>, b: seq<bool>)
    requires |a| == |b| == 16
    requires Update(r, a) == Update(r, b)
    ensures a == b
  {
    UpdateWord(r, a);
    UpdateWord(r, b);
    assert Pad(a) == a && Pad(b) == b;
    ShiftNInjective(Xor(r, a), Xor(r, b), 16);
    assert forall i :: 0 <= i < 16 ==> (r[i] != a[i]) == Xor(r, a)[i] && (r[i] != b[i]) == Xor(r, b)[i];
  }

  lemma {:induction false} UpdateInjective(r: Register, s: Register, bits: seq<bool>)
    requires Update(r, bits) == Update(s, bits)
    ensures r == s
    decreases bits
  {
    if bits != [] {
      UpdateInjective(Step(r, bits[0]), Step(s, bits[0]), bits[1..]);
      var a, b := [r[0] != bits[0]] + r[1..], [s[0] != bits[0]] + s[1..];
      ShiftInjective(a, b);
      assert forall i :: 1 <= i < 16 ==> r[i] == a[i] && s[i] == b[i];
    }
  }

  // A frame is data followed by its checksum exactly when it leaves the register at zero.

  predicate Codeword(frame: seq<byte>) {
    |frame| >= 2 && frame[|frame| - 2..] == Checksum(frame[..|frame| - 2])
  }

  lemma CodewordRegister(frame: seq<byte>)
    requires |frame| >= 2
    ensures Codeword(frame) <==> Update(Zero(), Bits(frame)) == Zero()
  {
    var data, field := frame[..|frame| - 2], frame[|frame| - 2..];
    assert frame == data + field;
    BitsAppend(data, field);
    UpdateAppend(Zero(), Bits(data), Bits(field));
    WordCancels(Update(Zero(), Bits(data)), Bits(field));
    ChecksumBits(data);
    if Bits(field) == Bits(Checksum(data)) {
      SameBitsAll(field, Checksum(data));
    }
  }

  lemma WordCancels(r: Register, word: seq<bool>)
    requires |word| == 16
    ensures Update(r, word) == Zero() <==> r == word
  {
    UpdateWord(r, word);
    assert Pad(word) == word;
    ShiftNZero(16);
    if r == word {
      assert Xor(r, word) == Zero();
    }
    if Update(r, word) == Zero() {
      ShiftNInjective(Xor(r, word), Zero(), 16);
      assert forall i :: 0 <= i < 16 ==> (r[i] != word[i]) == Xor(r, word)[i];
    }
  }

  lemma ChecksumBits(data: seq<byte>)
    ensures Bits(Checksum(data)) == Update(Zero(), Bits(data))
  {
    var r, field := Update(Zero(), Bits(data)), Checksum(data);
    assert field[1..] == [field[1]] && field[1..][1..] == [];
    assert Bits(field[1..]) == ToBits(field[1], 8) + [];
    assert r == r[..8] + r[8..];
  }

  lemma {:induction false} ShiftNZero(n: nat)
    ensures ShiftN(Zero(), n) == Zero()
  {
    if n > 0 {
      assert Shift(Zero()) == Zero();
      ShiftNZero(n - 1);
    }
  }

  // Errors.

  // Two frames of one length that agree except within sixteen consecutive bits.
  ghost predicate BurstAt(f: seq<byte>, g: seq<byte>, p: nat) {
    && |f| == |g| && p + 16 <= 8 * |f|
    && Bits(f)[..p] == Bits(g)[..p]
    && Bits(f)[p + 16..] == Bits(g)[p + 16..]
  }

  // The register after the sixteen bits at p and after the rest.
  lemma UpdateWindow(a: seq<bool>, p: nat)
    requires p + 16 <= |a|
    ensures Update(Zero(), a) == Update(Update(Update(Zero(), a[..p]), a[p..p + 16]), a[p + 16..])
  {
    var head := a[..p] + a[p..p + 16];
    assert a == head + a[p + 16..];
    UpdateAppend(Zero(), head, a[p + 16..]);
    UpdateAppend(Zero(), a[..p], a[p..p + 16]);
  }

  // No burst of up to sixteen bits turns one valid frame into another one.
  lemma BurstDetected(f: seq<byte>, g: seq<byte>, p: nat)
    requires Codeword(f) && BurstAt(f, g, p)
    ensures Codeword(g) <==> f == g
  {
    if Codeword(g) {
      var a, b := Bits(f), Bits(g);
      CodewordRegister(f);
      CodewordRegister(g);
      UpdateWindow(a, p);
      UpdateWindow(b, p);
      var r := Update(Zero(), a[..p]);
      var wa, wb := a[p..p + 16], b[p..p + 16];
      UpdateInjective(Update(r, wa), Update(r, wb), a[p + 16..]);
      UpdateWordInjective(r, wa, wb);
      assert a == a[..p] + wa + a[p + 16..] && b == b[..p] + wb + b[p + 16..];
      SameBitsAll(f, g);
    }
  }

  lemma {:induction false} SameBitsAll(f: seq<byte>, g: seq<byte>)
    requires |f| == |g| && Bits(f) == Bits(g)
    ensures f == g
  {
    if f != [] {
      assert ToBits(f[0], 8) == Bits(f)[..8] && ToBits(g[0], 8) == Bits(g)[..8];
      SameBits(f[0], g[0]);
      assert Bits(f[1..]) == Bits(f)[8..] && Bits(g[1..]) == Bits(g)[8..];
      SameBitsAll(f[1..], g[1..]);
    }
  }

  // In particular, two adjacent bytes may be anything.
  lemma AdjacentBytesAreABurst(f: seq<byte>, g: seq<byte>, i: nat)
    requires |f| == |g| && i + 2 <= |f|
    requires f[..i] == g[..i] && f[i + 2..] == g[i + 2..]
    ensures BurstAt(f, g, 8 * i)
  {
    assert f == f[..i] + f[i..i + 2] + f[i + 2..] && g == f[..i] + g[i..i + 2] + f[i + 2..];
    BitsAppend(f[..i] + f[i..i + 2], f[i + 2..]);
    BitsAppend(f[..i] + g[i..i + 2], f[i + 2..]);
    BitsAppend(f[..i], f[i..i + 2]);
    BitsAppend(f[..i], g[i..i + 2]);
  }

  // The register never leaves zero on zeros.

  lemma {:induction false} UpdateZeros(bits: seq<bool>)
    requires forall i :: 0 <= i < |bits| ==> !bits[i]
    ensures Update(Zero(), bits) == Zero()
  {
    if bits != [] {
      assert Step(Zero(), bits[0]) == Zero();
      UpdateZeros(bits[1..]);
    }
  }

  lemma {:induction false} BitsOfZeros(data: seq<byte>)
    requires forall i :: 0 <= i < |data| ==> data[i] == 0
    ensures forall i :: 0 <= i < |Bits(data)| ==> !Bits(data)[i]
  {
    if data != [] {
      BitsOfZeros(data[1..]);
      ZeroBits(8);
    }
  }

  lemma {:induction false} ZeroBits(width: nat)
    ensures forall i :: 0 <= i < width ==> !ToBits(0, width)[i]
  {
    if width > 0 {
      ZeroBits(width - 1);
    }
  }

  lemma ChecksumOfZeros(n: nat)
    ensures Checksum(seq(n, i => 0)) == [0, 0]
  {
    var data: seq<byte> := seq(n, i => 0);
    BitsOfZeros(data);
    UpdateZeros(Bits(data));
    ZeroBits(8);
    assert ToBits(0, 8) == Zero()[..8] == Zero()[8..];
    SameBits(Checksum(data)[0], 0);
    SameBits(Checksum(data)[1], 0);
  }

  // The checksum of a single set bit is the polynomial, 0x1021.
  lemma ChecksumOfOne()
    ensures Checksum([1]) == [0x10, 0x21]
  {
    hide Update, Shift, Step, FromBits;
    var zeros: seq<bool> := seq(7, i => false);
    assert Bits([1]) == zeros + [true] by {
      ZeroBits(7);
      assert ToBits(1, 8) == ToBits(0, 7) + [true];
      assert ToBits(0, 7) == zeros;
      assert Bits([1]) == ToBits(1, 8) + [];
    }
    UpdateZeros(zeros);
    UpdateAppend(Zero(), zeros, [true]);
    OneBit();
    PolynomialBytes();
    SameBits(Checksum([1])[0], 0x10);
    SameBits(Checksum([1])[1], 0x21);
  }

  lemma OneBit()
    ensures Update(Zero(), [true]) == Polynomial()
  {
    var r := Step(Zero(), true);
    assert [true][1..] == [];
    assert Update(Zero(), [true]) == Update(r, []) == r;
    assert r == Shift([true] + Zero()[1..]);
  }

  lemma PolynomialBytes()
    ensures ToBits(0x10, 8) == Polynomial()[..8] && ToBits(0x21, 8) == Polynomial()[8..]
  {
    hide ToBits;
    ZeroBits(3);
    ZeroBits(2);
    LowBit(0, 3);
    LowBit(0, 2);
    LowBit(1, 3);
    LowBit(1, 4);
    LowBit(2, 4);
    LowBit(2, 5);
    LowBit(4, 5);
    LowBit(4, 6);
    LowBit(8, 6);
    LowBit(8, 7);
    LowBit(0x10, 7);
  }

  lemma LowBit(n: nat, width: nat)
    ensures ToBits(2 * n, width + 1) == ToBits(n, width) + [false]
    ensures ToBits(2 * n + 1, width + 1) == ToBits(n, width) + [true]
  {
    hide ToBits;
    ToBitsStep(2 * n, width);
    ToBitsStep(2 * n + 1, width);
  }

  lemma ToBitsStep(n: nat, width: nat)
    ensures ToBits(n, width + 1) == ToBits(n / 2, width) + [n % 2 == 1]
  {
  }

  // The bits of a byte, most significant first.
  lemma BitsOfByte(b: byte)
    ensures Bits([b]) == [b / 128 % 2 == 1, b / 64 % 2 == 1, b / 32 % 2 == 1, b / 16 % 2 == 1,
                          b / 8 % 2 == 1, b / 4 % 2 == 1, b / 2 % 2 == 1, b % 2 == 1]
  {
    hide ToBits;
    assert [b][1..] == [] && Bits([b]) == ToBits(b, 8) + [];
    ToBitsStep(b, 7);
    ToBitsStep(b / 2, 6);
    ToBitsStep(b / 4, 5);
    ToBitsStep(b / 8, 4);
    ToBitsStep(b / 16, 3);
    ToBitsStep(b / 32, 2);
    ToBitsStep(b / 64, 1);
    ToBitsStep(b / 128, 0);
    Halves(b);
  }

  lemma Halves(b: byte)
    ensures b / 2 / 2 == b / 4 && b / 4 / 2 == b / 8 && b / 8 / 2 == b / 16 && b / 16 / 2 == b / 32
    ensures b / 32 / 2 == b / 64 && b / 64 / 2 == b / 128
  {
  }
}
