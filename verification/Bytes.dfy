/** Bytes, little-endian integers and the wrap-around of fixed-width integers. */
module Bytes {

  type byte = b: int | 0 <= b < 256
  type Word32 = w: nat | w < 0x1_0000_0000
  type Word64 = w: nat | w < 0x1_0000_0000_0000_0000
  type Int64 = i: int | -0x8000_0000_0000_0000 <= i < 0x8000_0000_0000_0000

  // `part` lies in `s` at `offset`.
  predicate At(s: seq<byte>, offset: nat, part: seq<byte>) {
    && offset + |part| <= |s|
    && forall k {:trigger part[k]} :: 0 <= k < |part| ==> s[offset + k] == part[k]
  }

  lemma AtSplits(s: seq<byte>, offset: nat, a: seq<byte>, b: seq<byte>)
    ensures At(s, offset, a + b) <==> At(s, offset, a) && At(s, offset + |a|, b)
  {
    if At(s, offset, a + b) {
      assert forall k {:trigger a[k]} :: 0 <= k < |a| ==> (a + b)[k] == a[k];
      assert forall k {:trigger b[k]} :: 0 <= k < |b| ==> (a + b)[|a| + k] == b[k];
    }
  }

  lemma AtSlice(s: seq<byte>, offset: nat, part: seq<byte>)
    requires offset + |part| <= |s|
    ensures At(s, offset, part) <==> s[offset..offset + |part|] == part
  {
  }

  lemma AtSelf(s: seq<byte>)
    ensures At(s, 0, s)
  {
  }

  lemma AtByte(s: seq<byte>, offset: nat, b: byte)
    ensures At(s, offset, [b]) <==> offset < |s| && s[offset] == b
  {
    if At(s, offset, [b]) {
      assert [b][0] == b;
    }
  }

  function Power256(n: nat): (p: nat)
    ensures p > 0
  {
    if n == 0 then 1 else 256 * Power256(n - 1)
  }

  // The low `n` bytes of `v`, least significant first.
  function LittleEndian(v: nat, n: nat): (bytes: seq<byte>)
    ensures |bytes| == n
  {
    if n == 0 then [] else [v % 256] + LittleEndian(v / 256, n - 1)
  }

  function FromLittleEndian(bytes: seq<byte>): (v: nat)
    ensures v < Power256(|bytes|)
  {
    if bytes == [] then 0 else bytes[0] + 256 * FromLittleEndian(bytes[1..])
  }

  lemma {:induction false} DecodeLittleEndian(v: nat, n: nat)
    ensures FromLittleEndian(LittleEndian(v, n)) == v % Power256(n)
  {
    if n > 0 {
      DecodeLittleEndian(v / 256, n - 1);
      var bytes := LittleEndian(v, n);
      assert bytes[1..] == LittleEndian(v / 256, n - 1);
      ModuloByParts(v, Power256(n - 1));
    }
  }

  lemma ModuloByParts(v: nat, m: nat)
    requires m > 0
    ensures v % (256 * m) == v % 256 + 256 * (v / 256 % m)
  {
    var q := v / 256 / m;
    var r := v % 256 + 256 * (v / 256 % m);
    assert v / 256 == q * m + v / 256 % m;
    assert v == 256 * (v / 256) + v % 256;
    assert v == q * (256 * m) + r by {
      assert 256 * (q * m) == q * (256 * m);
    }
    assert 0 <= r < 256 * m;
    DivisionIsUnique(v, 256 * m, q, r);
  }

  lemma MultipleTooLarge(d: int, m: nat)
    requires d >= 1
    ensures d * m >= m
  {
    assert (d - 1) * m >= 0;
    assert d * m == (d - 1) * m + m;
  }

  lemma DivisionIsUnique(v: int, m: nat, q: int, r: nat)
    requires m > 0 && v == q * m + r && r < m
    ensures v % m == r && v / m == q
  {
    var q', r' := v / m, v % m;
    assert v == q' * m + r';
    assert (q - q') * m == q * m - q' * m && (q' - q) * m == q' * m - q * m;
    if q > q' {
      MultipleTooLarge(q - q', m);
    } else if q < q' {
      MultipleTooLarge(q' - q, m);
    }
  }

  lemma {:induction false} EncodeFromLittleEndian(bytes: seq<byte>)
    ensures LittleEndian(FromLittleEndian(bytes), |bytes|) == bytes
  {
    if bytes != [] {
      EncodeFromLittleEndian(bytes[1..]);
      var v := FromLittleEndian(bytes);
      assert v % 256 == bytes[0] && v / 256 == FromLittleEndian(bytes[1..]);
    }
  }

  lemma {:induction false} FromLittleEndianOfOneMore(bytes: seq<byte>, b: byte)
    ensures FromLittleEndian(bytes + [b]) == FromLittleEndian(bytes) + Power256(|bytes|) * b
  {
    if bytes == [] {
      assert ([] + [b])[1..] == [];
    } else {
      FromLittleEndianOfOneMore(bytes[1..], b);
      assert (bytes + [b])[1..] == bytes[1..] + [b];
      assert 256 * (Power256(|bytes| - 1) * b) == Power256(|bytes|) * b;
    }
  }

  // Digit `k` of `v` in base 256; a negative integer is in two's complement.
  function Digit(v: int, k: nat): byte {
    v / Power256(k) % 256
  }

  lemma DivideTwice(v: int, m: nat)
    requires m > 0
    ensures v / (256 * m) == v / 256 / m
    ensures v % (256 * m) == v % 256 + 256 * (v / 256 % m)
  {
    var w := v / 256;
    var r := v % 256 + 256 * (w % m);
    assert v == 256 * w + v % 256 && w == w / m * m + w % m;
    assert 256 * (w / m * m) == w / m * (256 * m);
    DivisionIsUnique(v, 256 * m, w / m, r);
  }

  lemma NextDigit(v: int, k: nat)
    ensures Digit(v, k + 1) == Digit(v / 256, k) && Digit(v, 0) == v % 256
  {
    DivideTwice(v, Power256(k));
  }

  // Least significant byte first, whatever the number of bytes.
  lemma {:induction false} LittleEndianDigits(v: nat, n: nat, k: nat)
    requires k < n
    ensures LittleEndian(v, n)[k] == Digit(v, k)
  {
    hide Digit;
    if k == 0 {
      NextDigit(v, 0);
    } else {
      NextDigit(v, k - 1);
      LittleEndianDigits(v / 256, n - 1, k - 1);
    }
  }

  // The four bytes at `offset`, least significant first.
  function Word(bytes: seq<byte>, offset: nat): nat
    requires offset + 4 <= |bytes|
  {
    var b0: int, b1: int, b2: int, b3: int := bytes[offset], bytes[offset + 1], bytes[offset + 2], bytes[offset + 3];
    b0 + 0x100 * b1 + 0x1_0000 * b2 + 0x100_0000 * b3
  }

  lemma FourBytes(b: seq<byte>)
    requires |b| == 4
    ensures FromLittleEndian(b) == Word(b, 0)
  {
    var rest, last := b[1..], b[1..][1..];
    assert FromLittleEndian(last[1..]) == last[1] + 256 * FromLittleEndian([]) by {
      assert last[1..][1..] == [];
    }
    assert FromLittleEndian(last) == last[0] + 256 * FromLittleEndian(last[1..]);
    assert FromLittleEndian(rest) == rest[0] + 256 * FromLittleEndian(last);
  }

  // The loops that append and read an unsigned integer of `n` bytes.
  method AppendUnsigned(out: seq<byte>, value: nat, n: nat) returns (bytes: seq<byte>)
    ensures bytes == out + LittleEndian(value, n)
  {
    bytes := out;
    var rest := value;
    for i := 0 to n
      invariant bytes + LittleEndian(rest, n - i) == out + LittleEndian(value, n)
    {
      ghost var before := bytes;
      bytes := bytes + [rest % 256];
      assert bytes + LittleEndian(rest / 256, n - i - 1) == before + LittleEndian(rest, n - i);
      rest := rest / 256;
    }
    assert bytes + LittleEndian(rest, 0) == bytes;
  }

  method ReadUnsigned(bytes: seq<byte>, offset: nat, n: nat) returns (value: nat)
    requires offset + n <= |bytes|
    ensures value == FromLittleEndian(bytes[offset..offset + n])
  {
    value := 0;
    var scale: nat := 1;
    for i := 0 to n
      invariant scale == Power256(i) && value == FromLittleEndian(bytes[offset..offset + i])
    {
      FromLittleEndianOfOneMore(bytes[offset..offset + i], bytes[offset + i]);
      assert bytes[offset..offset + i] + [bytes[offset + i]] == bytes[offset..offset + i + 1];
      value := value + scale * bytes[offset + i];
      scale := 256 * scale;
    }
  }

  lemma PowersOf256()
    ensures Power256(1) == 0x100 && Power256(2) == 0x1_0000
    ensures Power256(4) == 0x1_0000_0000 && Power256(8) == 0x1_0000_0000_0000_0000
  {
    assert Power256(3) == 0x100_0000;
    assert Power256(5) == 0x100_0000_0000;
    assert Power256(6) == 0x1_0000_0000_0000;
    assert Power256(7) == 0x100_0000_0000_0000;
  }

  // Conversion of an integer to an unsigned integer of `n` bytes, and back to a signed one.
  function ToUnsigned(v: int, n: nat): (u: nat)
    ensures u < Power256(n)
  {
    v % Power256(n)
  }

  function ToSigned(u: nat, n: nat): int {
    if 2 * u < Power256(n) then u else u - Power256(n)
  }

  predicate FitsSigned(v: int, n: nat) {
    0 <= 2 * v + Power256(n) && 2 * v < Power256(n)
  }

  lemma SignedRoundTrip(v: int, n: nat)
    requires FitsSigned(v, n)
    ensures ToSigned(ToUnsigned(v, n), n) == v
  {
    var m := Power256(n);
    if v >= 0 {
      DivisionIsUnique(v, m, 0, v);
    } else {
      DivisionIsUnique(v, m, -1, v + m);
    }
  }

  // Bitwise exclusive or.
  function Xor(a: nat, b: nat): nat
    decreases a + b
  {
    if a == 0 && b == 0 then 0
    else (a % 2 + b % 2) % 2 + 2 * Xor(a / 2, b / 2)
  }

  function PowerOf2(n: nat): (p: nat)
    ensures p > 0
  {
    if n == 0 then 1 else 2 * PowerOf2(n - 1)
  }

  // The number whose binary digits are `bits`, least significant first.
  function FromBits(bits: seq<bool>): (v: nat)
    ensures v < PowerOf2(|bits|)
  {
    if bits == [] then 0 else (if bits[0] then 1 else 0) + 2 * FromBits(bits[1..])
  }

  // Bit `k` of a number, and the number with that bit set.
  predicate TestBit(v: nat, k: nat) {
    if k == 0 then v % 2 == 1 else TestBit(v / 2, k - 1)
  }

  function SetBit(v: nat, k: nat): nat {
    if k == 0 then v - v % 2 + 1 else v % 2 + 2 * SetBit(v / 2, k - 1)
  }

  lemma {:induction false} TestFromBits(bits: seq<bool>, k: nat)
    requires k < |bits|
    ensures TestBit(FromBits(bits), k) == bits[k]
  {
    if k > 0 {
      TestFromBits(bits[1..], k - 1);
    }
  }

  lemma {:induction false} SetFromBits(bits: seq<bool>, k: nat)
    requires k < |bits|
    ensures SetBit(FromBits(bits), k) == FromBits(bits[k := true])
  {
    if k > 0 {
      SetFromBits(bits[1..], k - 1);
      assert bits[k := true][1..] == bits[1..][k - 1 := true];
    } else {
      assert bits[0 := true][1..] == bits[1..];
    }
  }
}
