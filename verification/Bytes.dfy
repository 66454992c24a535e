/** Octets, fixed-width unsigned integers and network byte order. */
module Bytes {
  newtype Byte = x: int | 0 <= x < 0x100
  type U16 = x: int | 0 <= x < 0x1_0000
  type U32 = x: int | 0 <= x < 0x1_0000_0000

  const WORD: nat := 0x1_0000_0000_0000_0000

  type U64 = x: int | 0 <= x < WORD

  datatype Option<+T> = None | Some(value: T)

  datatype Result<+T, +E> = Ok(value: T) | Err(error: E)

  function Be16(n: U16): (b: seq<Byte>)
    ensures |b| == 2 && Word16(b[0], b[1]) == n
  {
    assert Word16((n / 0x100) as Byte, (n % 0x100) as Byte) == n;
    var hi: Byte, lo: Byte :| Word16(hi, lo) == n;
    [hi, lo]
  }

  function Word16(hi: Byte, lo: Byte): U16 {
    hi as int * 0x100 + lo as int
  }

  lemma Be16Is(n: U16)
    ensures Be16(n) == [(n / 0x100) as Byte, (n % 0x100) as Byte]
  {
  }

  lemma Be16Inverse(hi: Byte, lo: Byte)
    ensures Be16(Word16(hi, lo)) == [hi, lo]
  {
  }

  function Be32(n: U32): (b: seq<Byte>)
    ensures |b| == 4 && Word32(b) == n
  {
    var hi: U16, lo: U16 := n / 0x1_0000, n % 0x1_0000;
    Be16(hi) + Be16(lo)
  }

  function Word32(b: seq<Byte>): U32
    requires |b| == 4
  {
    Word16(b[0], b[1]) * 0x1_0000 + Word16(b[2], b[3])
  }

  /** The truncating cast to sixteen bits. */
  function Low16(n: nat): U16 {
    if n < 0x1_0000 then n else n % 0x1_0000
  }

  function Zeros(n: nat): (z: seq<Byte>)
    ensures |z| == n
  {
    seq(n, _ => 0)
  }

  /** Bitwise exclusive or of the lowest `bits` bits. */
  function XorBits(a: nat, b: nat, bits: nat): (r: nat) {
    if bits == 0 then 0
    else (if a % 2 == b % 2 then 0 else 1) + 2 * XorBits(a / 2, b / 2, bits - 1)
  }

  function Pow2(n: nat): (p: nat)
    ensures p > 0
  {
    if n == 0 then 1 else 2 * Pow2(n - 1)
  }

  /** Masking twice with the same bits restores the original. */
  lemma {:induction false} XorBitsTwice(a: nat, mask: nat, bits: nat)
    requires a < Pow2(bits)
    ensures XorBits(a, mask, bits) < Pow2(bits)
    ensures XorBits(XorBits(a, mask, bits), mask, bits) == a
  {
    if bits > 0 {
      XorBitsTwice(a / 2, mask / 2, bits - 1);
    }
  }

  function Xor(a: Byte, b: Byte): Byte {
    assert Pow2(8) == 0x100;
    XorBitsTwice(a as int, b as int, 8);
    XorBits(a as int, b as int, 8) as Byte
  }

  lemma XorTwice(a: Byte, mask: Byte)
    ensures Xor(Xor(a, mask), mask) == a
  {
    XorBitsTwice(a as int, mask as int, 8);
  }

  function XorAll(s: seq<Byte>, mask: seq<Byte>): (r: seq<Byte>)
    requires |s| <= |mask|
    ensures |r| == |s|
  {
    seq(|s|, i requires 0 <= i < |s| => Xor(s[i], mask[i]))
  }

  lemma XorAllTwice(s: seq<Byte>, mask: seq<Byte>)
    requires |s| <= |mask|
    ensures XorAll(XorAll(s, mask), mask) == s
  {
    forall i | 0 <= i < |s|
      ensures XorAll(XorAll(s, mask), mask)[i] == s[i]
    {
      XorTwice(s[i], mask[i]);
    }
  }

  function Copies<T>(x: T, n: nat): (r: seq<T>)
    ensures |r| == n
  {
    seq(n, _ => x)
  }

  /** A condition as a count. */
  function One(b: bool): int { if b then 1 else 0 }

  function Min(a: int, b: int): int { if a < b then a else b }

  function Max(a: int, b: int): int { if a < b then b else a }
}
