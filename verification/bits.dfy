/**
 Bytes and the facts linking 8-bit operators to arithmetic on naturals, so
 that the codecs can be written with the source's operators and specified
 with arithmetic.
 */
module Bits {

  /** One byte as read from a `Uint8Array` or `DataView.getUint8`. */
  type Byte = b: nat | b < 256

  /** A two-bit value as a `bv8`. */
  function Crumb(n: nat): (x: bv8)
    requires n < 4
    ensures x as int == n
  {
    if n == 0 then 0 else if n == 1 then 1 else if n == 2 then 2 else 3
  }

  /** A four-bit value as a `bv8`, assembled from its two halves. */
  function Nibble(n: nat): (x: bv8)
    requires n < 16
    ensures x as int == n
  {
    JoinFields(Crumb(n / 4), Crumb(n % 4), 2);
    (Crumb(n / 4) << 2) | Crumb(n % 4)
  }

  /** A byte as a `bv8`, assembled from its two nibbles. */
  function ToBits(b: Byte): (x: bv8)
    ensures x as int == b
  {
    JoinFields(Nibble(b / 16), Nibble(b % 16), 4);
    (Nibble(b / 16) << 4) | Nibble(b % 16)
  }

  /** Or-ing a low field below a high one shifted past it adds them. */
  lemma JoinFields(hi: bv8, lo: bv8, k: nat)
    requires k == 2 || k == 4
    requires (k == 2 ==> hi < 4 && lo < 4) && (k == 4 ==> hi < 16 && lo < 16)
    ensures ((hi << k) | lo) as int == (if k == 2 then 4 else 16) * hi as int + lo as int
  {
  }

  /** `x & 0b11` keeps the value modulo 4. */
  lemma Mask2(x: bv8)
    ensures (x & 3) as int == x as int % 4
  {
  }

  /** `x & 0b1111` keeps the value modulo 16. */
  lemma Mask4(x: bv8)
    ensures (x & 15) as int == x as int % 16
  {
  }

  /** `x >> 2` divides by 4. */
  lemma Shift2(x: bv8)
    ensures (x >> 2) as int == x as int / 4
  {
  }

  /** `(x >> 4) & 0b11` is bits 4-5. */
  lemma Shift4Mask2(x: bv8)
    ensures ((x >> 4) & 3) as int == (x as int / 16) % 4
  {
  }

  /** `x >> 6` divides by 64. */
  lemma Shift6(x: bv8)
    ensures (x >> 6) as int == x as int / 64
  {
  }

  /** Or-ing fields shifted into disjoint bit ranges adds them. */
  lemma PackFields(c: bv8, p: bv8, q: bv8)
    requires c < 16 && p < 4 && q < 4
    ensures (c | (p << 4) | (q << 6)) as int == c as int + 16 * p as int + 64 * q as int
  {
  }

  /** A byte is its low nibble, bits 4-5 and bits 6-7 put back together. */
  lemma ByteFields(b: Byte)
    ensures b == b % 16 + 16 * ((b / 16) % 4) + 64 * (b / 64)
  {
    var q := b / 16;
    assert b == 16 * q + b % 16;
    assert q == 4 * (q / 4) + q % 4;
    assert q / 4 == b / 64;
  }

  /** The fields of `code + 16 * p1 + 64 * p2` read back from their bit ranges. */
  lemma FieldsOfPacked(code: nat, p1: nat, p2: nat)
    requires code < 16 && p1 < 4 && p2 < 4
    ensures (code + 16 * p1 + 64 * p2) % 16 == code
    ensures ((code + 16 * p1 + 64 * p2) / 16) % 4 == p1
    ensures (code + 16 * p1 + 64 * p2) / 64 == p2
  {
    var q := p1 + 4 * p2;
    assert code + 16 * p1 + 64 * p2 == 16 * q + code;
    assert (16 * q + code) / 16 == q;
    assert q % 4 == p1 && q / 4 == p2;
    assert (16 * q + code) / 64 == q / 4;
  }
}
