/**
  CRC32C as the reflected feedback register with the Castagnoli polynomial
  (section 12.1 of RFC 3720), and what such a register is guaranteed to notice.
 */
module Crc32c {
  import opened Bytes

  /** A 32-bit register, low bit first. */
  type Register = r: seq<bool> | |r| == 32 witness Bits(0, 32)

  const POLYNOMIAL := 0x82F6_3B78
  const TAPS: Register := Bits(POLYNOMIAL, 32)
  const ONES: Register := Bits(0xFFFF_FFFF, 32)

  /** One clock: shift right, and add the polynomial when low bit and message bit differ. */
  function Clock(taps: Register, r: Register, m: bool): Register {
    seq(32, i requires 0 <= i < 32 => (i < 31 && r[i + 1]) != ((r[0] != m) && taps[i]))
  }

  function Feed(taps: Register, r: Register, bits: seq<bool>): Register
    decreases |bits|
  {
    if bits == [] then r else Feed(taps, Clock(taps, r, bits[0]), bits[1..])
  }

  function Complement(r: Register): Register {
    seq(32, i requires 0 <= i < 32 => !r[i])
  }

  /** The checksum a register with these taps and this preset computes. */
  function ChecksumWith(taps: Register, preset: Register, data: seq<byte>): (crc: nat)
    ensures crc < U32_LIMIT
  {
    var r := Complement(Feed(taps, preset, BitString(data)));
    NumberBounded(r);
    Pow2Of32();
    Number(r)
  }

  function Checksum(data: seq<byte>): (crc: nat)
    ensures crc < U32_LIMIT
  {
    ChecksumWith(TAPS, ONES, data)
  }

  lemma {:induction false} TopBit(n: nat, width: nat)
    requires width > 0 && Pow2(width - 1) <= n < Pow2(width)
    ensures Bits(n, width)[width - 1]
  {
    if width > 1 { TopBit(n / 2, width - 1); }
  }

  /** The polynomial's top coefficient is set. */
  lemma TopTap()
    ensures TAPS[31]
  {
    Pow2Of32();
    assert Pow2(31) == 0x8000_0000;
    TopBit(POLYNOMIAL, 32);
  }

  // ---------------------------------------------------------------- running the register backwards

  /** The last bit of a clocked register is its feedback, so agreement there and above carries back. */
  lemma ClockBack(taps: Register, x: Register, y: Register, a: bool, b: bool, k: nat)
    requires taps[31] && k <= 31
    requires forall i :: k <= i < 32 ==> Clock(taps, x, a)[i] == Clock(taps, y, b)[i]
    ensures (x[0] != a) == (y[0] != b)
    ensures forall i :: k < i < 32 ==> x[i] == y[i]
  {
    assert Clock(taps, x, a)[31] == Clock(taps, y, b)[31];
    forall i | k < i < 32 ensures x[i] == y[i] {
      assert Clock(taps, x, a)[i - 1] == Clock(taps, y, b)[i - 1];
    }
  }

  predicate AlikeFrom(x: Register, y: Register, j: nat) {
    forall i :: j <= i < 32 ==> x[i] == y[i]
  }

  /** If some bits lead to registers alike from bit `j` on, the registers before them differ in the low bits only. */
  lemma {:induction false} FeedBack(taps: Register, x: Register, y: Register, u: seq<bool>, v: seq<bool>, j: nat)
    requires taps[31] && |u| == |v| && |u| + j <= 32 && AlikeFrom(Feed(taps, x, u), Feed(taps, y, v), j)
    ensures AlikeFrom(x, y, |u| + j)
    ensures x == y ==> u == v
    decreases |u|
  {
    if u != [] {
      var x', y' := Clock(taps, x, u[0]), Clock(taps, y, v[0]);
      assert Feed(taps, x, u) == Feed(taps, x', u[1..]) && Feed(taps, y, v) == Feed(taps, y', v[1..]);
      FeedBack(taps, x', y', u[1..], v[1..], j);
      ClockBack(taps, x, y, u[0], v[0], |u| - 1 + j);
      assert u == [u[0]] + u[1..] && v == [v[0]] + v[1..];
    }
  }

  /** Equal tails never bring different registers together. */
  lemma {:induction false} SameTailInjective(taps: Register, x: Register, y: Register, tail: seq<bool>)
    requires taps[31] && Feed(taps, x, tail) == Feed(taps, y, tail)
    ensures x == y
    decreases |tail|
  {
    if tail != [] {
      SameTailInjective(taps, Clock(taps, x, tail[0]), Clock(taps, y, tail[0]), tail[1..]);
      ClockBack(taps, x, y, tail[0], tail[0], 0);
    }
  }

  lemma {:induction false} FeedConcat(taps: Register, r: Register, a: seq<bool>, b: seq<bool>)
    ensures Feed(taps, r, a + b) == Feed(taps, Feed(taps, r, a), b)
    decreases |a|
  {
    if a == [] {
      assert a + b == b;
    } else {
      FeedConcat(taps, Clock(taps, r, a[0]), a[1..], b);
      assert (a + b)[1..] == a[1..] + b;
    }
  }

  /** Messages that differ only inside a window of at most 32 bits leave different registers. */
  lemma BurstChangesRegister(taps: Register, r: Register, head: seq<bool>, u: seq<bool>, v: seq<bool>, tail: seq<bool>)
    requires taps[31] && |u| == |v| <= 32 && u != v
    ensures Feed(taps, r, head + u + tail) != Feed(taps, r, head + v + tail)
  {
    FeedConcat(taps, r, head + u, tail);
    FeedConcat(taps, r, head, u);
    FeedConcat(taps, r, head + v, tail);
    FeedConcat(taps, r, head, v);
    if Feed(taps, r, head + u + tail) == Feed(taps, r, head + v + tail) {
      SameTailInjective(taps, Feed(taps, r, head + u), Feed(taps, r, head + v), tail);
      FeedBack(taps, Feed(taps, r, head), Feed(taps, r, head), u, v, 0);
      assert false;
    }
  }

  /** The messages of `a` and `b` agree outside bits `from` to `to`. */
  predicate AgreeOutside(a: seq<byte>, b: seq<byte>, from: nat, to: nat) {
    && |a| == |b| && from <= to <= 8 * |a|
    && BitString(a)[..from] == BitString(b)[..from] && BitString(a)[to..] == BitString(b)[to..]
  }

  lemma BurstDetected(taps: Register, preset: Register, a: seq<byte>, b: seq<byte>, from: nat, to: nat)
    requires taps[31] && a != b && AgreeOutside(a, b, from, to) && to - from <= 32
    ensures ChecksumWith(taps, preset, a) != ChecksumWith(taps, preset, b)
  {
    var x, y := BitString(a), BitString(b);
    var u, v := x[from..to], y[from..to];
    assert x == x[..from] + u + x[to..];
    assert y == y[..from] + v + y[to..];
    if u == v { BitStringInjective(a, b); }
    BurstChangesRegister(taps, preset, x[..from], u, v, x[to..]);
    if ChecksumWith(taps, preset, a) == ChecksumWith(taps, preset, b) {
      SameChecksumSameRegister(taps, preset, a, b);
    }
  }

  lemma SameChecksumSameRegister(taps: Register, preset: Register, a: seq<byte>, b: seq<byte>)
    requires ChecksumWith(taps, preset, a) == ChecksumWith(taps, preset, b)
    ensures Feed(taps, preset, BitString(a)) == Feed(taps, preset, BitString(b))
  {
    var x, y := Feed(taps, preset, BitString(a)), Feed(taps, preset, BitString(b));
    NumberInjective(Complement(x), Complement(y));
    forall i | 0 <= i < 32 ensures x[i] == y[i] {
      assert Complement(x)[i] == Complement(y)[i];
    }
  }

  /** CRC32C notices every change confined to a window of at most 32 bits. */
  lemma ChecksumDetectsBurst(a: seq<byte>, b: seq<byte>, from: nat, to: nat)
    requires a != b && AgreeOutside(a, b, from, to) && to - from <= 32
    ensures Checksum(a) != Checksum(b)
  {
    TopTap();
    BurstDetected(TAPS, ONES, a, b, from, to);
  }

  lemma AgreeOutsideBytes(a: seq<byte>, b: seq<byte>, from: nat, to: nat)
    requires |a| == |b| && from <= to <= |a| && a[..from] == b[..from] && a[to..] == b[to..]
    ensures AgreeOutside(a, b, 8 * from, 8 * to)
  {
    BitStringSplit(a, from);
    BitStringSplit(b, from);
    BitStringSplit(a, to);
    BitStringSplit(b, to);
  }

  /** In particular every change confined to at most four adjacent bytes. */
  lemma ChecksumDetectsFourBytes(a: seq<byte>, b: seq<byte>, from: nat, to: nat)
    requires |a| == |b| && from <= to <= |a| && to - from <= 4 && a != b
    requires a[..from] == b[..from] && a[to..] == b[to..]
    ensures Checksum(a) != Checksum(b)
  {
    AgreeOutsideBytes(a, b, from, to);
    ChecksumDetectsBurst(a, b, 8 * from, 8 * to);
  }

  // ---------------------------------------------------------------- a message with its checksum behind it

  /** `stored` is the little-endian checksum of `data`. */
  predicate Seals(data: seq<byte>, stored: seq<byte>) {
    |stored| == 4 && LeNumber(stored) == Checksum(data)
  }

  /** The stored bits are the register's, low bit first. */
  lemma SealIsRegister(data: seq<byte>, stored: seq<byte>)
    requires Seals(data, stored)
    ensures BitString(stored) == Complement(Feed(TAPS, ONES, BitString(data)))
  {
    NumberOfBitString(stored);
    NumberInjective(BitString(stored), Complement(Feed(TAPS, ONES, BitString(data))));
  }

  /** A change of the last bits of a message does not show as a change of the first bits of its seal only. */
  lemma StraddlingBurst(taps: Register, r: Register, head: seq<bool>, u: seq<bool>, v: seq<bool>, j: nat)
    requires taps[31] && |u| == |v| && |u| + j <= 32
    requires AlikeFrom(Feed(taps, r, head + u), Feed(taps, r, head + v), j)
    ensures u == v
  {
    FeedConcat(taps, r, head, u);
    FeedConcat(taps, r, head, v);
    FeedBack(taps, Feed(taps, r, head), Feed(taps, r, head), u, v, j);
  }

  lemma AgreeInBody(a: seq<byte>, s: seq<byte>, b: seq<byte>, t: seq<byte>, from: nat, to: nat)
    requires |a| == |b| && AgreeOutside(a + s, b + t, from, to) && to <= 8 * |a|
    ensures AgreeOutside(a, b, from, to) && s == t
  {
    BitStringConcat(a, s);
    BitStringConcat(b, t);
    var x, y, n := BitString(a + s), BitString(b + t), 8 * |a|;
    assert x[..n] == BitString(a) && y[..n] == BitString(b);
    assert x[..n][..from] == x[..from] && y[..n][..from] == y[..from];
    assert x[..n][to..] == x[to..][..n - to] && y[..n][to..] == y[to..][..n - to];
    assert BitString(s) == x[to..][n - to..] && BitString(t) == y[to..][n - to..];
    BitStringInjective(s, t);
  }

  lemma TailsAlike(a: seq<bool>, s: seq<bool>, b: seq<bool>, t: seq<bool>, to: nat)
    requires |a| == |b| <= to <= |a + s| && |s| == |t| && (a + s)[to..] == (b + t)[to..]
    ensures forall i :: to - |a| <= i < |s| ==> s[i] == t[i]
  {
    forall i | to - |a| <= i < |s| ensures s[i] == t[i] {
      assert (a + s)[to..][i + |a| - to] == s[i] && (b + t)[to..][i + |a| - to] == t[i];
    }
  }

  lemma ComplementsAlike(x: Register, y: Register, j: nat)
    requires forall i :: j <= i < 32 ==> Complement(x)[i] == Complement(y)[i]
    ensures AlikeFrom(x, y, j)
  {
    forall i | j <= i < 32 ensures x[i] == y[i] {
      assert Complement(x)[i] == Complement(y)[i];
    }
  }

  /** The same for a window that reaches into the seal. */
  lemma BurstInSeal(taps: Register, r: Register, x: seq<bool>, y: seq<bool>, from: nat, to: nat)
    requires taps[31] && |x| == |y| <= to && from <= to && to - from <= 32
    requires
      var (s, t) := (Complement(Feed(taps, r, x)), Complement(Feed(taps, r, y)));
      to <= |x| + 32 && (x + s)[..from] == (y + t)[..from] && (x + s)[to..] == (y + t)[to..]
    ensures x == y
  {
    var s, t := Complement(Feed(taps, r, x)), Complement(Feed(taps, r, y));
    if from < |x| {
      TailsAlike(x, s, y, t, to);
      ComplementsAlike(Feed(taps, r, x), Feed(taps, r, y), to - |x|);
      assert x[..from] == (x + s)[..from] && y[..from] == (y + t)[..from];
      assert x == x[..from] + x[from..] && y == x[..from] + y[from..];
      StraddlingBurst(taps, r, x[..from], x[from..], y[from..], to - |x|);
    } else {
      assert (x + s)[..from][..|x|] == x && (y + t)[..from][..|x|] == y;
    }
  }

  /** Two sealed messages that differ only inside a window of at most 32 bits, wherever it lies, are the same. */
  lemma SealDetectsBurst(a: seq<byte>, s: seq<byte>, b: seq<byte>, t: seq<byte>, from: nat, to: nat)
    requires |a| == |b| && Seals(a, s) && Seals(b, t)
    requires AgreeOutside(a + s, b + t, from, to) && to - from <= 32
    ensures a == b && s == t
  {
    if to <= 8 * |a| {
      AgreeInBody(a, s, b, t, from, to);
      if a != b { ChecksumDetectsBurst(a, b, from, to); }
    } else {
      BitStringConcat(a, s);
      BitStringConcat(b, t);
      SealIsRegister(a, s);
      SealIsRegister(b, t);
      TopTap();
      BurstInSeal(TAPS, ONES, BitString(a), BitString(b), from, to);
      BitStringInjective(a, b);
      LeNumberInjective(s, t);
    }
  }

  // ---------------------------------------------------------------- an odd number of changed bits

  /** Whether the number of set bits is odd. */
  function Parity(bits: seq<bool>): bool {
    if bits == [] then false else bits[0] != Parity(bits[1..])
  }

  function XorBits(a: seq<bool>, b: seq<bool>): (c: seq<bool>)
    requires |a| == |b|
    ensures |c| == |a|
  {
    if a == [] then [] else [a[0] != b[0]] + XorBits(a[1..], b[1..])
  }

  lemma {:induction false} XorBitsAt(a: seq<bool>, b: seq<bool>, i: nat)
    requires |a| == |b| && i < |a|
    ensures XorBits(a, b)[i] == (a[i] != b[i])
  {
    if i > 0 { XorBitsAt(a[1..], b[1..], i - 1); }
  }

  lemma {:induction false} ParityOfXor(a: seq<bool>, b: seq<bool>)
    requires |a| == |b|
    ensures Parity(XorBits(a, b)) == (Parity(a) != Parity(b))
  {
    if a != [] {
      ParityOfXor(a[1..], b[1..]);
      assert XorBits(a, b)[1..] == XorBits(a[1..], b[1..]);
    }
  }

  lemma {:induction false} ParityConcat(a: seq<bool>, b: seq<bool>)
    ensures Parity(a + b) == (Parity(a) != Parity(b))
  {
    if a == [] {
      assert a + b == b;
    } else {
      ParityConcat(a[1..], b);
      assert (a + b)[1..] == a[1..] + b;
    }
  }

  function Zeros(n: nat): (z: seq<bool>)
    ensures |z| == n
  {
    seq(n, _ => false)
  }

  lemma {:induction false} ParityOfZeros(n: nat)
    ensures !Parity(Zeros(n))
  {
    if n > 0 {
      ParityOfZeros(n - 1);
      assert Zeros(n)[1..] == Zeros(n - 1);
    }
  }

  /** One clock adds the polynomial, or nothing, to the shifted register. */
  lemma ClockIsXor(taps: Register, r: Register, m: bool)
    ensures Clock(taps, r, m) == XorBits(r[1..] + [false], if r[0] != m then taps else Zeros(32))
  {
    var a, b := r[1..] + [false], if r[0] != m then taps else Zeros(32);
    forall i | 0 <= i < 32 ensures Clock(taps, r, m)[i] == XorBits(a, b)[i] { XorBitsAt(a, b, i); }
  }

  /** With an odd number of taps a clock adds the message bit to the parity. */
  lemma ClockParity(taps: Register, r: Register, m: bool)
    requires Parity(taps)
    ensures Parity(Clock(taps, r, m)) == (Parity(r) != m)
  {
    ClockIsXor(taps, r, m);
    ParityOfXor(r[1..] + [false], if r[0] != m then taps else Zeros(32));
    ParityConcat(r[1..], [false]);
    ParityOfZeros(32);
  }

  lemma {:induction false} FeedParity(taps: Register, r: Register, bits: seq<bool>)
    requires Parity(taps)
    ensures Parity(Feed(taps, r, bits)) == (Parity(r) != Parity(bits))
    decreases |bits|
  {
    if bits != [] {
      ClockParity(taps, r, bits[0]);
      FeedParity(taps, Clock(taps, r, bits[0]), bits[1..]);
    }
  }

  /** Whether the low `width` bits of a number hold an odd number of ones. */
  function OddOnes(n: nat, width: nat): bool {
    if width == 0 then false else (n % 2 == 1) != OddOnes(n / 2, width - 1)
  }

  lemma {:induction false} ParityOfBits(n: nat, width: nat)
    ensures Parity(Bits(n, width)) == OddOnes(n, width)
  {
    if width > 0 {
      ParityOfBits(n / 2, width - 1);
      assert Bits(n, width)[1..] == Bits(n / 2, width - 1);
    }
  }

  lemma OddOnesOfBit(n: nat, width: nat, b: nat)
    requires b < 2
    ensures OddOnes(2 * n + b, width + 1) == ((b == 1) != OddOnes(n, width))
  {
    assert (2 * n + b) % 2 == b && (2 * n + b) / 2 == n;
  }

  /** Four bits at a time, the highest first. */
  lemma OddOnesOfDigit(n: nat, width: nat, d: nat, c: nat, b: nat, a: nat)
    requires d < 2 && c < 2 && b < 2 && a < 2
    ensures OddOnes(16 * n + 8 * d + 4 * c + 2 * b + a, width + 4) ==
            (((d + c + b + a) % 2 == 1) != OddOnes(n, width))
  {
    OddOnesOfBit(n, width, d);
    OddOnesOfBit(2 * n + d, width + 1, c);
    OddOnesOfBit(4 * n + 2 * d + c, width + 2, b);
    OddOnesOfBit(8 * n + 4 * d + 2 * c + b, width + 3, a);
  }

  /** CRC32C's polynomial, digit by digit: 17 of the 32 taps are set. */
  lemma PolynomialIsOdd()
    ensures OddOnes(POLYNOMIAL, 32)
  {
    OddOnesOfDigit(0, 0, 1, 0, 0, 0);
    OddOnesOfDigit(0x8, 4, 0, 0, 1, 0);
    OddOnesOfDigit(0x82, 8, 1, 1, 1, 1);
    OddOnesOfDigit(0x82F, 12, 0, 1, 1, 0);
    OddOnesOfDigit(0x82F6, 16, 0, 0, 1, 1);
    OddOnesOfDigit(0x82F63, 20, 1, 0, 1, 1);
    OddOnesOfDigit(0x82F63B, 24, 0, 1, 1, 1);
    OddOnesOfDigit(0x82F63B7, 28, 1, 0, 0, 0);
  }

  lemma TapsAreOdd()
    ensures Parity(TAPS)
  {
    ParityOfBits(POLYNOMIAL, 32);
    PolynomialIsOdd();
  }

  function Ones(n: nat): (z: seq<bool>)
    ensures |z| == n
  {
    seq(n, _ => true)
  }

  /** The preset is all ones. */
  lemma {:induction false} BitsOfOnes(n: nat, width: nat)
    requires n == Pow2(width) - 1
    ensures Bits(n, width) == Ones(width)
  {
    if width > 0 {
      BitsOfOnes(n / 2, width - 1);
      assert Ones(width) == [true] + Ones(width - 1);
    }
  }

  lemma PresetIsOnes()
    ensures ONES == Ones(32)
  {
    Pow2Of32();
    BitsOfOnes(0xFFFF_FFFF, 32);
  }

  lemma {:induction false} ParityOfOnes(n: nat)
    ensures Parity(Ones(n)) == (n % 2 == 1)
  {
    if n > 0 {
      ParityOfOnes(n - 1);
      assert Ones(n)[1..] == Ones(n - 1);
    }
  }

  lemma ParityOfComplement(r: Register)
    ensures Parity(Complement(r)) == Parity(r)
  {
    var ones := Ones(32);
    forall i | 0 <= i < 32 ensures Complement(r)[i] == XorBits(r, ones)[i] { XorBitsAt(r, ones, i); }
    assert Complement(r) == XorBits(r, ones);
    ParityOfXor(r, ones);
    ParityOfOnes(32);
  }

  lemma PresetIsEven()
    ensures !Parity(ONES)
  {
    PresetIsOnes();
    ParityOfOnes(32);
  }

  /** A message and the complement of the register that read it, from an even preset and with odd taps. */
  lemma RegisterParity(taps: Register, preset: Register, message: seq<bool>, seal: seq<bool>)
    requires Parity(taps) && !Parity(preset) && seal == Complement(Feed(taps, preset, message))
    ensures !Parity(message + seal)
  {
    ParityConcat(message, seal);
    FeedParity(taps, preset, message);
    ParityOfComplement(Feed(taps, preset, message));
  }

  /** A message and its seal together always hold an even number of ones. */
  lemma SealedParity(data: seq<byte>, stored: seq<byte>)
    requires Seals(data, stored)
    ensures !Parity(BitString(data + stored))
  {
    SealIsRegister(data, stored);
    BitStringConcat(data, stored);
    TapsAreOdd();
    PresetIsEven();
    RegisterParity(TAPS, ONES, BitString(data), BitString(stored));
  }

  /** The number of bits in which two messages differ. */
  function Changed(a: seq<bool>, b: seq<bool>): nat
    requires |a| == |b|
  {
    if a == [] then 0 else Changed(a[1..], b[1..]) + (if a[0] != b[0] then 1 else 0)
  }

  lemma {:induction false} ChangedParity(a: seq<bool>, b: seq<bool>)
    requires |a| == |b|
    ensures Changed(a, b) % 2 == 1 <==> Parity(a) != Parity(b)
  {
    if a != [] { ChangedParity(a[1..], b[1..]); }
  }

  /** Two sealed messages never differ in an odd number of bits, wherever these lie. */
  lemma SealDetectsOdd(a: seq<byte>, s: seq<byte>, b: seq<byte>, t: seq<byte>)
    requires |a| == |b| && Seals(a, s) && Seals(b, t)
    ensures Changed(BitString(a + s), BitString(b + t)) % 2 == 0
  {
    SealedParity(a, s);
    SealedParity(b, t);
    ChangedParity(BitString(a + s), BitString(b + t));
  }

  // ---------------------------------------------------------------- the polynomial, preset and complement themselves

  /** Ones shifted out by ones leave zeros behind, whatever the taps. */
  lemma {:induction false} OnesFlushOnes(taps: Register, k: nat)
    requires k <= 32
    ensures Feed(taps, Ones(k) + Zeros(32 - k), Ones(k)) == Zeros(32)
  {
    if k == 0 {
      assert Ones(0) + Zeros(32) == Zeros(32);
    } else {
      var r := Ones(k) + Zeros(32 - k);
      assert Clock(taps, r, true) == Ones(k - 1) + Zeros(33 - k);
      OnesFlushOnes(taps, k - 1);
      assert Ones(k)[1..] == Ones(k - 1);
    }
  }

  /** An idle register stays idle, and the first one bit loads the taps. */
  lemma {:induction false} OneLoadsTaps(taps: Register, k: nat)
    ensures Feed(taps, Zeros(32), Zeros(k) + [true]) == taps
  {
    if k == 0 {
      assert Zeros(0) + [true] == [true];
      assert Clock(taps, Zeros(32), true) == taps;
      assert [true][1..] == [];
    } else {
      assert Clock(taps, Zeros(32), false) == Zeros(32);
      OneLoadsTaps(taps, k - 1);
      assert (Zeros(k) + [true])[1..] == Zeros(k - 1) + [true];
    }
  }

  lemma {:induction false} NumberOfComplement(bits: seq<bool>, not: seq<bool>)
    requires |bits| == |not| && forall i :: 0 <= i < |bits| ==> not[i] == !bits[i]
    ensures Number(bits) + Number(not) == Pow2(|bits|) - 1
  {
    if bits != [] { NumberOfComplement(bits[1..], not[1..]); }
  }

  /** Four bytes of ones flush the preset, and the last bit of the fifth byte loads the taps. */
  lemma ProbeBits()
    ensures BitString([0xFF, 0xFF, 0xFF, 0xFF, 0x80]) == Ones(32) + (Zeros(7) + [true])
  {
    Pow2Byte(0);
    BitsOfOnes(0xFF, 8);
    TopBitOnly(7);
    assert BitString([0x80]) == Bits(0x80, 8) + BitString([]);
    assert BitString([0xFF, 0x80]) == Ones(8) + BitString([0x80]);
    assert BitString([0xFF, 0xFF, 0x80]) == Ones(8) + BitString([0xFF, 0x80]);
    assert BitString([0xFF, 0xFF, 0xFF, 0x80]) == Ones(8) + BitString([0xFF, 0xFF, 0x80]);
    assert BitString([0xFF, 0xFF, 0xFF, 0xFF, 0x80]) == Ones(8) + BitString([0xFF, 0xFF, 0xFF, 0x80]);
  }

  lemma {:induction false} TopBitOnly(k: nat)
    ensures Bits(Pow2(k), k + 1) == Zeros(k) + [true]
  {
    if k > 0 {
      TopBitOnly(k - 1);
      assert Zeros(k) == [false] + Zeros(k - 1);
    }
  }

  lemma ProbeWith(taps: Register, preset: Register, data: seq<byte>)
    requires preset == Ones(32) && BitString(data) == Ones(32) + (Zeros(7) + [true])
    ensures ChecksumWith(taps, preset, data) == 0xFFFF_FFFF - Number(taps)
  {
    assert Ones(32) + Zeros(0) == Ones(32);
    FeedConcat(taps, preset, Ones(32), Zeros(7) + [true]);
    OnesFlushOnes(taps, 32);
    OneLoadsTaps(taps, 7);
    NumberOfComplement(taps, Complement(taps));
    Pow2Of32();
  }

  /**
    The checksum of FF FF FF FF 80. The first four bytes cancel the preset, the
    fifth loads the polynomial, and the result is its complement.
   */
  lemma ProbeChecksum()
    ensures Checksum([0xFF, 0xFF, 0xFF, 0xFF, 0x80]) == 0x7D09_C487
  {
    ProbeBits();
    PresetIsOnes();
    ProbeWith(TAPS, ONES, [0xFF, 0xFF, 0xFF, 0xFF, 0x80]);
    Pow2Of32();
    NumberOfBits(POLYNOMIAL, 32);
  }
}
