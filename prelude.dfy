/** Small building blocks shared by the whole model: an optional value, bytes and the
    fixed-width integer conversions the Rust code relies on (`u16::to_be_bytes`,
    `u16::from_be_bytes`, `as u16`, `as i32`, `as usize`). */
module Prelude {

  datatype Option<+T> = None | Some(value: T)

  /** A `u8`. */
  type Byte = bv8

  /** A `u32` (the type of message indices received over the C boundary). */
  type U32 = x: int | 0 <= x < 0x1_0000_0000

  const U16_MODULUS: nat := 0x1_0000

  /** The one-bit mask `1u8 << j`, one literal per bit position. */
  function BitMask(j: nat): Byte
    requires j < 8
  {
    if j == 0 then 0x01 else if j == 1 then 0x02 else if j == 2 then 0x04 else if j == 3 then 0x08
    else if j == 4 then 0x10 else if j == 5 then 0x20 else if j == 6 then 0x40 else 0x80
  }

  /** True when bit `j` (0 = least significant) of `b` is set. */
  predicate TestBit(b: Byte, j: nat)
    requires j < 8
  {
    b & BitMask(j) != 0
  }

  /** `b >> s` for a shift amount from 0 to the width, as `s` single-place shifts. */
  function Shr(b: Byte, s: nat): Byte
    requires s <= 8
  {
    if s == 0 then b else Shr(b, s - 1) >> 1
  }

  /** The same shift, one literal shift per amount. */
  function ShiftRight(b: Byte, s: nat): Byte
    requires s <= 8
  {
    if s == 0 then b else if s == 1 then b >> 1 else if s == 2 then b >> 2 else if s == 3 then b >> 3
    else if s == 4 then b >> 4 else if s == 5 then b >> 5 else if s == 6 then b >> 6
    else if s == 7 then b >> 7 else 0
  }

  lemma {:induction false} ShrIsShiftRight(b: Byte, s: nat)
    requires s <= 8
    ensures Shr(b, s) == ShiftRight(b, s)
  {
    if s > 0 {
      ShrIsShiftRight(b, s - 1);
    }
  }

  /** Bit `s` is the low bit of `b >> s`: `TestBit` is the `(b >> j) & 1 == 1` of the Rust
      code. */
  lemma ShrLowBit(b: Byte, s: nat)
    requires s < 8
    ensures TestBit(b, s) <==> Shr(b, s) & 1 == 1
  {
    ShrIsShiftRight(b, s);
  }

  /** A byte shifted by its full width is zero. */
  lemma ShrWidth(b: Byte)
    ensures Shr(b, 8) == 0
  {
    ShrIsShiftRight(b, 8);
  }

  lemma OrBit(x: Byte, y: Byte, j: nat)
    requires j < 8
    ensures TestBit(x | y, j) <==> TestBit(x, j) || TestBit(y, j)
  {
  }

  lemma BitMaskBit(b: nat, j: nat)
    requires b < 8 && j < 8
    ensures TestBit(BitMask(b), j) <==> b == j
  {
  }

  lemma ZeroHasNoBits(j: nat)
    requires j < 8
    ensures !TestBit(0, j)
  {
  }

  /** Two bytes are equal when they agree on all eight bits. */
  lemma BitExtensionality(x: Byte, y: Byte)
    requires forall j: nat | j < 8 :: TestBit(x, j) == TestBit(y, j)
    ensures x == y
  {
    assert TestBit(x, 0) == TestBit(y, 0);
    assert TestBit(x, 1) == TestBit(y, 1);
    assert TestBit(x, 2) == TestBit(y, 2);
    assert TestBit(x, 3) == TestBit(y, 3);
    assert TestBit(x, 4) == TestBit(y, 4);
    assert TestBit(x, 5) == TestBit(y, 5);
    assert TestBit(x, 6) == TestBit(y, 6);
    assert TestBit(x, 7) == TestBit(y, 7);
  }

  /** `n as u16`: truncation modulo 2^16. */
  function AsU16(n: nat): (r: nat)
    ensures r < U16_MODULUS
    ensures n < U16_MODULUS ==> r == n
  {
    n % U16_MODULUS
  }

  /** `u16::to_be_bytes`: most significant byte first. */
  function U16ToBeBytes(n: nat): (r: seq<Byte>)
    requires n < U16_MODULUS
    ensures |r| == 2
  {
    [ByteOfNat(n / 256), ByteOfNat(n % 256)]
  }

  /** `u16::from_be_bytes` of the first two bytes of `s`. */
  function U16FromBeBytes(s: seq<Byte>): (n: nat)
    requires |s| >= 2
    ensures n < U16_MODULUS
  {
    (s[0] as nat) * 256 + (s[1] as nat)
  }

  /** Reading back a big-endian `u16` gives the value that was written. */
  lemma U16RoundTrip(n: nat, rest: seq<Byte>)
    requires n < U16_MODULUS
    ensures U16FromBeBytes(U16ToBeBytes(n) + rest) == n
  {
    var s := U16ToBeBytes(n) + rest;
    assert s[0] as nat == n / 256 && s[1] as nat == n % 256;
  }

  /** The byte whose value is `x` (`x as u8` for `x` in range), counted up one at a time so
      that no integer-to-bit-vector conversion is needed. */
  function ByteOfNat(x: nat): (b: Byte)
    requires x < 256
    ensures b as nat == x
  {
    if x == 0 then 0 else ByteOfNat(x - 1) + 1
  }

  /** `x as i32` for a non-negative `usize`: two's-complement wrap-around into [-2^31, 2^31). */
  function AsI32(x: nat): (r: int)
    ensures -0x8000_0000 <= r < 0x8000_0000
    ensures x < 0x8000_0000 ==> r == x
  {
    var low := x % 0x1_0000_0000;
    if low < 0x8000_0000 then low else low - 0x1_0000_0000
  }

  /** `x as usize` for a `jint` on a 64-bit target: negative values wrap to large ones. */
  function JintAsUsize(x: int): (r: nat)
    requires -0x8000_0000 <= x < 0x8000_0000
    ensures x >= 0 ==> r == x
    ensures x < 0 ==> r >= 0x8000_0000_0000_0000
  {
    if x >= 0 then x else x + 0x1_0000_0000_0000_0000
  }
}
