/** Byte strings and the fixed-width integer encodings of Rust's standard library. */
module Bytes {

  type byte = x: int | 0 <= x < 256
  type Bytes = seq<byte>

  type u32 = x: int | 0 <= x < 0x1_0000_0000
  type u64 = x: int | 0 <= x < 0x1_0000_0000_0000_0000
  type i64 = x: int | -0x8000_0000_0000_0000 <= x < 0x8000_0000_0000_0000

  /** The number of values that `width` bytes can hold. */
  function Capacity(width: nat): (c: nat)
    ensures c > 0
  {
    if width == 0 then 1 else 256 * Capacity(width - 1)
  }

  lemma CapacityOfWords()
    ensures Capacity(4) == 0x1_0000_0000
    ensures Capacity(8) == 0x1_0000_0000_0000_0000
  {
    assert Capacity(2) == 256 * Capacity(1) == 65536;
    assert Capacity(4) == 256 * Capacity(3) == 65536 * Capacity(2);
    assert Capacity(6) == 256 * Capacity(5) == 65536 * Capacity(4);
    assert Capacity(8) == 256 * Capacity(7) == 65536 * Capacity(6);
  }

  /** `to_be_bytes`: the low `width` bytes of `n`, most significant first. */
  function BigEndian(n: nat, width: nat): (b: Bytes)
    ensures |b| == width
  {
    if width == 0 then [] else BigEndian(n / 256, width - 1) + [n % 256]
  }

  /** `from_be_bytes`. */
  function FromBigEndian(b: Bytes): nat {
    if b == [] then 0 else 256 * FromBigEndian(b[..|b| - 1]) + b[|b| - 1]
  }

  /** `to_le_bytes`: the low `width` bytes of `n`, least significant first. */
  function LittleEndian(n: nat, width: nat): (b: Bytes)
    ensures |b| == width
  {
    if width == 0 then [] else [n % 256] + LittleEndian(n / 256, width - 1)
  }

  /** `from_le_bytes`. */
  function FromLittleEndian(b: Bytes): nat {
    if b == [] then 0 else b[0] + 256 * FromLittleEndian(b[1..])
  }

  lemma DivideByByte(n: nat, c: nat)
    requires n < 256 * c
    ensures n / 256 < c
  {
  }

  /** Reading back a big-endian integer gives it modulo the capacity of the width. */
  lemma {:induction false} BigEndianRoundTrip(n: nat, width: nat)
    requires n < Capacity(width)
    ensures FromBigEndian(BigEndian(n, width)) == n
  {
    if width > 0 {
      DivideByByte(n, Capacity(width - 1));
      BigEndianRoundTrip(n / 256, width - 1);
      var b := BigEndian(n, width);
      assert b[..|b| - 1] == BigEndian(n / 256, width - 1);
    }
  }

  lemma {:induction false} LittleEndianRoundTrip(n: nat, width: nat)
    requires n < Capacity(width)
    ensures FromLittleEndian(LittleEndian(n, width)) == n
  {
    if width > 0 {
      DivideByByte(n, Capacity(width - 1));
      LittleEndianRoundTrip(n / 256, width - 1);
      assert LittleEndian(n, width)[1..] == LittleEndian(n / 256, width - 1);
    }
  }

  /** Equal fixed-width encodings come from equal integers. */
  lemma BigEndianInjective(m: nat, n: nat, width: nat)
    requires m < Capacity(width) && n < Capacity(width)
    requires BigEndian(m, width) == BigEndian(n, width)
    ensures m == n
  {
    BigEndianRoundTrip(m, width);
    BigEndianRoundTrip(n, width);
  }

  lemma TwoMoreBytes(n: nat, width: nat)
    ensures BigEndian(n, width + 2) == BigEndian(n / 0x1_0000, width) + [n / 0x100 % 256, n % 256]
    ensures LittleEndian(n, width + 2) == [n % 256, n / 0x100 % 256] + LittleEndian(n / 0x1_0000, width)
  {
    assert n / 0x100 / 0x100 == n / 0x1_0000;
    assert BigEndian(n, width + 2) == BigEndian(n / 0x100, width + 1) + [n % 256];
    assert LittleEndian(n, width + 2) == [n % 256] + LittleEndian(n / 0x100, width + 1);
  }

  lemma NoBytes(n: nat)
    ensures BigEndian(n, 0) == LittleEndian(n, 0) == []
  {
  }

  /** Four bytes, place by place. */
  lemma FourBytes(n: nat)
    ensures BigEndian(n, 4) == [n / 0x100_0000 % 256, n / 0x1_0000 % 256, n / 0x100 % 256, n % 256]
    ensures LittleEndian(n, 4) == [n % 256, n / 0x100 % 256, n / 0x1_0000 % 256, n / 0x100_0000 % 256]
  {
    var m := n / 0x1_0000;
    TwoMoreBytes(n, 2);
    TwoMoreBytes(m, 0);
    NoBytes(m / 0x1_0000);
    assert m / 0x100 == n / 0x100_0000;
  }

  lemma FourMoreBytes(n: nat)
    ensures BigEndian(n, 8) == BigEndian(n / 0x1_0000_0000, 4) + BigEndian(n, 4)
    ensures LittleEndian(n, 8) == LittleEndian(n, 4) + LittleEndian(n / 0x1_0000_0000, 4)
  {
    var m := n / 0x1_0000;
    TwoMoreBytes(n, 6);
    TwoMoreBytes(m, 4);
    TwoMoreBytes(n, 2);
    TwoMoreBytes(m, 0);
    NoBytes(m / 0x1_0000);
    assert m / 0x1_0000 == n / 0x1_0000_0000;
  }

  /** Eight bytes, place by place. */
  lemma EightBytes(n: nat)
    ensures BigEndian(n, 8) ==
              [n / 0x100_0000_0000_0000 % 256, n / 0x1_0000_0000_0000 % 256, n / 0x100_0000_0000 % 256,
               n / 0x1_0000_0000 % 256, n / 0x100_0000 % 256, n / 0x1_0000 % 256, n / 0x100 % 256, n % 256]
    ensures LittleEndian(n, 8) ==
              [n % 256, n / 0x100 % 256, n / 0x1_0000 % 256, n / 0x100_0000 % 256, n / 0x1_0000_0000 % 256,
               n / 0x100_0000_0000 % 256, n / 0x1_0000_0000_0000 % 256, n / 0x100_0000_0000_0000 % 256]
  {
    var high := n / 0x1_0000_0000;
    FourMoreBytes(n);
    FourBytes(n);
    FourBytes(high);
    assert high / 0x100 == n / 0x100_0000_0000;
    assert high / 0x1_0000 == n / 0x1_0000_0000_0000;
    assert high / 0x100_0000 == n / 0x100_0000_0000_0000;
  }

  /** The bits of a signed 64-bit integer read as an unsigned one. */
  function TwosComplement(i: i64): u64 {
    if i < 0 then i + 0x1_0000_0000_0000_0000 else i
  }

  /** The inverse reading. */
  function FromTwosComplement(n: u64): i64 {
    if n >= 0x8000_0000_0000_0000 then n - 0x1_0000_0000_0000_0000 else n
  }

  /** The concatenation of a list of byte strings. */
  function Concat(parts: seq<Bytes>): Bytes {
    if parts == [] then [] else parts[0] + Concat(parts[1..])
  }

  lemma Associate<T>(a: seq<T>, b: seq<T>, c: seq<T>)
    ensures a + (b + c) == (a + b) + c
  {
  }

  lemma {:induction false} ConcatAppend(a: seq<Bytes>, b: seq<Bytes>)
    ensures Concat(a + b) == Concat(a) + Concat(b)
  {
    if a == [] {
      assert a + b == b;
    } else {
      ConcatAppend(a[1..], b);
      assert (a + b)[1..] == a[1..] + b;
      Associate(a[0], Concat(a[1..]), Concat(b));
    }
  }
}
