/** Byte-level building blocks of the OSC wire format: bytes, 32-bit big-endian
    words and the four-byte alignment padding (`OSC.padding_size`). */
module Bytes {

  type byte = b: int | 0 <= b < 256
  type Bytes = seq<byte>

  /** An unsigned 32-bit value, the range of a Ruby `pack('N')` word. */
  type u32 = n: int | 0 <= n < 0x1_0000_0000

  const WordRange: int := 0x1_0000_0000

  /** `n` NUL bytes, as written by the `x` directive of `pack`. */
  function Zeros(n: nat): (z: Bytes)
    ensures |z| == n
    ensures forall i :: 0 <= i < n ==> z[i] == 0
  {
    seq(n, _ => 0)
  }

  /** Number of NUL bytes that bring a field of `size` bytes to the next
      multiple of four (`OSC.padding_size`). */
  function PaddingSize(size: nat): (p: nat)
    ensures p < 4
    ensures (size + p) % 4 == 0
  {
    (4 - size % 4) % 4
  }

  /** Padding is the unique amount below four that aligns the field. */
  lemma PaddingIsLeast(size: nat, q: nat)
    requires q < 4 && (size + q) % 4 == 0
    ensures q == PaddingSize(size)
  {
  }

  /** A length below 2^32 is its own low 32 bits, so `pack('N')` keeps it. */
  lemma SmallWordValue(n: nat)
    requires n < WordRange
    ensures n % WordRange == n
  {
  }

  lemma ConcatAssociative<T>(a: seq<T>, b: seq<T>, c: seq<T>)
    ensures a + b + c == a + (b + c)
  {
  }

  /** The three parts of `a + b + c`, recovered by slicing. */
  lemma ConcatParts<T>(a: seq<T>, b: seq<T>, c: seq<T>)
    ensures (a + b + c)[..|a|] == a
    ensures (a + b + c)[|a|..|a| + |b|] == b
    ensures (a + b + c)[|a| + |b|..] == c
  {
  }

  /** Joining two aligned fields gives an aligned field. */
  lemma AlignedConcat(x: Bytes, y: Bytes)
    requires |x| % 4 == 0 && |y| % 4 == 0
    ensures |x + y| % 4 == 0
  {
  }

  /** The unsigned value of four bytes read big-endian (`unpack('N')`). */
  function WordValue(w: Bytes): (n: u32)
    requires |w| == 4
  {
    ((w[0] as int * 256 + w[1]) * 256 + w[2]) * 256 + w[3]
  }

  /** Four big-endian bytes of `n` (`pack('N')`). */
  function WordBytes(n: u32): (w: Bytes)
    ensures |w| == 4
    ensures WordValue(w) == n
  {
    var b0 := n / 0x100_0000;
    var r0 := n % 0x100_0000;
    var b1 := r0 / 0x1_0000;
    var r1 := r0 % 0x1_0000;
    var b2 := r1 / 0x100;
    var b3 := r1 % 0x100;
    assert n == b0 * 0x100_0000 + r0;
    assert r0 == b1 * 0x1_0000 + r1;
    assert r1 == b2 * 0x100 + b3;
    [b0, b1, b2, b3]
  }

  /** Encoding a word is injective: the bytes are determined by their value. */
  lemma {:induction false} WordBytesOfValue(w: Bytes)
    requires |w| == 4
    ensures WordBytes(WordValue(w)) == w
  {
    var n := WordValue(w);
    var r1: int := w[2] as int * 256 + w[3];
    var r0: int := w[1] as int * 0x1_0000 + r1;
    assert n == w[0] as int * 0x100_0000 + r0;
    assert r0 < 0x100_0000;
    assert n / 0x100_0000 == w[0] && n % 0x100_0000 == r0;
    assert r0 / 0x1_0000 == w[1] && r0 % 0x1_0000 == r1;
    assert r1 / 0x100 == w[2] && r1 % 0x100 == w[3];
  }

  /** The Ruby decoder's reading of an unsigned word as a signed int32
      (`int > (2**31-1) ? int - 2**32 : int`). */
  function Signed(n: u32): (i: int)
    ensures -0x8000_0000 <= i < 0x8000_0000
    ensures i % WordRange == n
  {
    if n > 0x7FFF_FFFF then n - WordRange else n
  }

  /** Packing an int32 with `N` (two's-complement truncation) and reading it
      back with the sign rule gives the same integer. */
  lemma SignedOfTruncated(i: int)
    requires -0x8000_0000 <= i < 0x8000_0000
    ensures Signed(i % WordRange) == i
  {
  }
}
