/** Bytes, their bits, and fixed-width integer encodings. */
module Bytes {

  type byte = n: int | 0 <= n < 256

  /** The low `width` bits of `n`, least significant first. */
  function Bits(n: nat, width: nat): (bits: seq<bool>)
    ensures |bits| == width
  {
    if width == 0 then [] else [n % 2 == 1] + Bits(n / 2, width - 1)
  }

  /** The number whose bits are `bits`, least significant first. */
  function Number(bits: seq<bool>): nat {
    if bits == [] then 0 else (if bits[0] then 1 else 0) + 2 * Number(bits[1..])
  }

  function Pow2(n: nat): nat {
    if n == 0 then 1 else 2 * Pow2(n - 1)
  }

  lemma {:induction false} NumberOfBits(n: nat, width: nat)
    requires n < Pow2(width)
    ensures Number(Bits(n, width)) == n
  {
    if width > 0 { NumberOfBits(n / 2, width - 1); }
  }

  lemma {:induction false} NumberInjective(a: seq<bool>, b: seq<bool>)
    requires |a| == |b| && Number(a) == Number(b)
    ensures a == b
  {
    if a != [] {
      NumberInjective(a[1..], b[1..]);
      assert a == [a[0]] + a[1..] && b == [b[0]] + b[1..];
    }
  }

  lemma {:induction false} NumberBounded(bits: seq<bool>)
    ensures Number(bits) < Pow2(|bits|)
  {
    if bits != [] { NumberBounded(bits[1..]); }
  }

  /** The bits of a byte string in transmission order, low bit of each byte first. */
  function BitString(data: seq<byte>): (bits: seq<bool>)
    ensures |bits| == 8 * |data|
  {
    if data == [] then [] else Bits(data[0], 8) + BitString(data[1..])
  }

  lemma {:induction false} BitStringConcat(a: seq<byte>, b: seq<byte>)
    ensures BitString(a + b) == BitString(a) + BitString(b)
  {
    if a == [] {
      assert a + b == b;
    } else {
      var first, rest := Bits(a[0], 8), BitString(a[1..]);
      BitStringConcat(a[1..], b);
      assert (a + b)[1..] == a[1..] + b && (a + b)[0] == a[0];
      assert BitString(a + b) == first + (rest + BitString(b));
      assert first + (rest + BitString(b)) == (first + rest) + BitString(b);
    }
  }

  lemma {:induction false} BitStringInjective(a: seq<byte>, b: seq<byte>)
    requires |a| == |b| && BitString(a) == BitString(b)
    ensures a == b
  {
    if a != [] {
      var x, y := BitString(a), BitString(b);
      assert x[..8] == Bits(a[0], 8) && x[8..] == BitString(a[1..]);
      assert y[..8] == Bits(b[0], 8) && y[8..] == BitString(b[1..]);
      Pow2Byte(0);
      NumberOfBits(a[0], 8);
      NumberOfBits(b[0], 8);
      BitStringInjective(a[1..], b[1..]);
      assert a == [a[0]] + a[1..] && b == [b[0]] + b[1..];
    }
  }

  lemma BitStringSplit(a: seq<byte>, n: nat)
    requires n <= |a|
    ensures BitString(a)[..8 * n] == BitString(a[..n]) && BitString(a)[8 * n..] == BitString(a[n..])
  {
    BitStringConcat(a[..n], a[n..]);
    assert a == a[..n] + a[n..];
  }

  const U32_LIMIT := 0x1_0000_0000

  /** The number whose little-endian bytes are `b`. */
  function LeNumber(b: seq<byte>): nat {
    if b == [] then 0 else b[0] as int + 256 * LeNumber(b[1..])
  }

  function LeBytes(n: nat, width: nat): (b: seq<byte>)
    ensures |b| == width
  {
    if width == 0 then [] else [n % 256] + LeBytes(n / 256, width - 1)
  }

  lemma {:induction false} LeNumberInjective(a: seq<byte>, b: seq<byte>)
    requires |a| == |b| && LeNumber(a) == LeNumber(b)
    ensures a == b
  {
    if a != [] {
      LeNumberInjective(a[1..], b[1..]);
      assert a == [a[0]] + a[1..] && b == [b[0]] + b[1..];
    }
  }

  lemma {:induction false} NumberConcat(a: seq<bool>, b: seq<bool>)
    ensures Number(a + b) == Number(a) + Pow2(|a|) * Number(b)
  {
    if a == [] {
      assert a + b == b;
    } else {
      NumberConcat(a[1..], b);
      assert (a + b)[1..] == a[1..] + b;
      assert Pow2(|a|) * Number(b) == 2 * (Pow2(|a| - 1) * Number(b));
    }
  }

  /** Little-endian bytes and low-bit-first bits spell the same number. */
  lemma {:induction false} NumberOfBitString(b: seq<byte>)
    ensures Number(BitString(b)) == LeNumber(b)
  {
    if b != [] {
      Pow2Byte(0);
      NumberOfBits(b[0], 8);
      NumberConcat(Bits(b[0], 8), BitString(b[1..]));
      NumberOfBitString(b[1..]);
    }
  }

  lemma {:induction false} LeNumberOfBytes(n: nat, width: nat)
    requires n < Pow2(8 * width)
    ensures LeNumber(LeBytes(n, width)) == n
  {
    if width > 0 {
      Pow2Byte(8 * (width - 1));
      LeNumberOfBytes(n / 256, width - 1);
      assert LeBytes(n, width)[1..] == LeBytes(n / 256, width - 1);
    }
  }

  lemma Pow2Byte(n: nat)
    ensures Pow2(n + 8) == 256 * Pow2(n)
  {
    assert Pow2(n + 2) == 4 * Pow2(n);
    assert Pow2(n + 4) == 16 * Pow2(n);
    assert Pow2(n + 6) == 64 * Pow2(n);
  }

  lemma Pow2Of32()
    ensures Pow2(32) == U32_LIMIT
  {
    Pow2Byte(0);
    Pow2Byte(8);
    Pow2Byte(16);
    Pow2Byte(24);
  }
}
