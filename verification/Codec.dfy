/** Persisted block framing and WAL value compression. */
module Codec {
  import opened Basics
  import opened Bytes
  import Crc32c

  datatype Algo = NoCompression | Lz4 | Zstd3 | Zstd9

  function ToByte(algo: Algo): byte {
    match algo
    case NoCompression => 0
    case Lz4 => 1
    case Zstd3 => 2
    case Zstd9 => 3
  }

  function FromByte(code: byte): Option<Algo> {
    if code == 0 then Some(NoCompression)
    else if code == 1 then Some(Lz4)
    else if code == 2 then Some(Zstd3)
    else if code == 3 then Some(Zstd9)
    else None
  }

  /** The four codes and no others name an algorithm, each its own. */
  lemma CodesAreExact(code: byte, algo: Algo)
    ensures FromByte(code) == Some(algo) <==> code == ToByte(algo)
    ensures FromByte(code).None? <==> code > 3
    ensures ToByte(NoCompression) == 0 && ToByte(Lz4) == 1 && ToByte(Zstd3) == 2 && ToByte(Zstd9) == 3
  {
  }

  /**
    The acceptance ratio. A threshold that is not a number or carries a minus
    sign rejects everything; a finite one stands for the real number halfway to
    the next representable threshold.
   */
  datatype Ratio = Rejecting | Unbounded | AtMost(limit: real)

  datatype Policy =
    | Never
    | Fixed(algo: Algo)
    | Adaptive(minSavings: nat, ratio: Ratio, algorithms: seq<Algo>)

  datatype CodecError =
    | TooSmallForTrailer
    | ChecksumMismatch
    | UnknownAlgorithm
    | MissingSizePrefix
    | ContentSizeUnavailable
    | DeclaredSizeTooLarge
    | DecodeFailed
    | EncodeFailed

  datatype Hint = Hint(decodeLimit: nat, reservationLimit: nat)

  const MIN_COMPRESSION_INPUT_BYTES := 256
  const MAX_BLOCK_SIZE := 64 * 1024
  const MAX_DECOMPRESSED_BLOCK_SIZE := 64 * 1024 * 1024
  const BLOCK_TRAILER_SIZE := 5

  // ---------------------------------------------------------------- the compression libraries

  /** The LZ4 and zstd entry points in use; `None` is a library error. */
  datatype Library = Library(
    lz4Compress: seq<byte> -> seq<byte>,
    lz4Decompress: seq<byte> -> Option<seq<byte>>,
    zstdCompress: (seq<byte>, nat) -> Option<seq<byte>>,
    zstdContentSize: seq<byte> -> Option<Option<nat>>,
    zstdDecompress: (seq<byte>, nat) -> Option<seq<byte>>)

  ghost predicate LawfulLz4(lib: Library) {
    && (forall data :: |data| < U32_LIMIT ==>
          var c := lib.lz4Compress(data);
          |c| >= 4 && LeNumber(c[..4]) == |data| && lib.lz4Decompress(c) == Some(data))
    && (forall c :: lib.lz4Decompress(c).Some? ==>
          |c| >= 4 && |lib.lz4Decompress(c).value| <= LeNumber(c[..4]))
  }

  /** Frames from the bulk compressor carry a content size (section 3.1.1.1.4 of RFC 8878). */
  ghost predicate LawfulZstd(lib: Library) {
    && (forall data, level :: lib.zstdCompress(data, level).Some? ==>
          lib.zstdContentSize(lib.zstdCompress(data, level).value) == Some(Some(|data|)))
    && (forall data, level, limit :: lib.zstdCompress(data, level).Some? && |data| <= limit ==>
          lib.zstdDecompress(lib.zstdCompress(data, level).value, limit) == Some(data))
    && (forall c, limit :: lib.zstdDecompress(c, limit).Some? ==> |lib.zstdDecompress(c, limit).value| <= limit)
  }

  ghost predicate Lawful(lib: Library) {
    LawfulLz4(lib) && LawfulZstd(lib)
  }

  /** The two requirements are consistent: storing the data verbatim meets them. */
  ghost function Verbatim(): Library {
    Library(
      data => LeBytes(|data|, 4) + data,
      c => if |c| >= 4 && LeNumber(c[..4]) == |c| - 4 then Some(c[4..]) else None,
      (data, level) => Some(data),
      c => Some(Some(|c|)),
      (c, limit) => if |c| <= limit then Some(c) else None)
  }

  lemma VerbatimIsLawful()
    ensures Lawful(Verbatim())
  {
    var lib := Verbatim();
    forall data: seq<byte> | |data| < U32_LIMIT
      ensures
        var c := lib.lz4Compress(data);
        |c| >= 4 && LeNumber(c[..4]) == |data| && lib.lz4Decompress(c) == Some(data)
    {
      var c := lib.lz4Compress(data);
      Pow2Of32();
      LeNumberOfBytes(|data|, 4);
      assert c[..4] == LeBytes(|data|, 4) && c[4..] == data;
    }
  }

  // ---------------------------------------------------------------- decoding

  function Enforce(size: nat): Result<nat, CodecError> {
    if size > MAX_DECOMPRESSED_BLOCK_SIZE then Err(DeclaredSizeTooLarge) else Ok(size)
  }

  function LenHint(lib: Library, algo: Algo, compressed: seq<byte>): Result<Hint, CodecError> {
    match algo
    case NoCompression => Ok(Hint(|compressed|, |compressed|))
    case Lz4 =>
      if |compressed| < 4 then Err(MissingSizePrefix)
      else SizedHint(LeNumber(compressed[..4]))
    case Zstd3 | Zstd9 =>
      match lib.zstdContentSize(compressed)
      case None => Err(ContentSizeUnavailable)
      case Some(Some(size)) => SizedHint(size)
      case Some(None) => Ok(Hint(MAX_BLOCK_SIZE, MAX_DECOMPRESSED_BLOCK_SIZE))
  }

  function SizedHint(size: nat): Result<Hint, CodecError> {
    match Enforce(size)
    case Err(e) => Err(e)
    case Ok(n) => Ok(Hint(n, n))
  }

  function Decompress(lib: Library, compressed: seq<byte>, algo: Algo): Result<seq<byte>, CodecError> {
    if algo.NoCompression? then Ok(compressed)
    else
      match LenHint(lib, algo, compressed)
      case Err(e) => Err(e)
      case Ok(hint) =>
        match (if algo.Lz4? then lib.lz4Decompress(compressed) else lib.zstdDecompress(compressed, hint.decodeLimit))
        case None => Err(DecodeFailed)
        case Some(data) => Ok(data)
  }

  /** Payload and algorithm byte, without the stored checksum. */
  function Body(block: seq<byte>): seq<byte>
    requires |block| >= BLOCK_TRAILER_SIZE
  {
    block[..|block| - 4]
  }

  function StoredChecksum(block: seq<byte>): nat
    requires |block| >= BLOCK_TRAILER_SIZE
  {
    LeNumber(block[|block| - 4..])
  }

  /** The stored checksum matches the body, as in every framed block. */
  predicate Sealed(block: seq<byte>) {
    |block| >= BLOCK_TRAILER_SIZE && Crc32c.Checksum(Body(block)) == StoredChecksum(block)
  }

  /** Decoding past the checksum. */
  function Open(lib: Library, block: seq<byte>): Result<seq<byte>, CodecError>
    requires |block| >= BLOCK_TRAILER_SIZE
  {
    var payload := |block| - BLOCK_TRAILER_SIZE;
    match FromByte(block[payload])
    case None => Err(UnknownAlgorithm)
    case Some(algo) => Decompress(lib, block[..payload], algo)
  }

  function DecompressWithTrailer(lib: Library, block: seq<byte>): Result<seq<byte>, CodecError> {
    if |block| < BLOCK_TRAILER_SIZE then Err(TooSmallForTrailer)
    else if !Sealed(block) then Err(ChecksumMismatch)
    else Open(lib, block)
  }

  function DecompressedSizeWithTrailer(lib: Library, block: seq<byte>): Result<nat, CodecError> {
    if |block| < BLOCK_TRAILER_SIZE then Err(TooSmallForTrailer)
    else
      var payload := |block| - BLOCK_TRAILER_SIZE;
      match FromByte(block[payload])
      case None => Err(UnknownAlgorithm)
      case Some(algo) =>
        match LenHint(lib, algo, block[..payload])
        case Err(e) => Err(e)
        case Ok(hint) => Ok(hint.reservationLimit)
  }

  /** The decoder never produces more than the decode limit, which never exceeds the reservation. */
  lemma HintCoversDecoding(lib: Library, compressed: seq<byte>, algo: Algo)
    requires Lawful(lib) && Decompress(lib, compressed, algo).Ok?
    ensures LenHint(lib, algo, compressed).Ok?
    ensures
      var hint := LenHint(lib, algo, compressed).value;
      && |Decompress(lib, compressed, algo).value| <= hint.decodeLimit <= hint.reservationLimit
      && (!algo.NoCompression? ==> hint.reservationLimit <= MAX_DECOMPRESSED_BLOCK_SIZE)
  {
    if algo.Lz4? {
      assert lib.lz4Decompress(compressed).Some?;
    } else if !algo.NoCompression? {
      var hint := LenHint(lib, algo, compressed).value;
      assert lib.zstdDecompress(compressed, hint.decodeLimit).Some?;
    }
  }

  /** For arbitrary bytes: whatever decodes was first given a reservation that large. */
  lemma ReservationCoversDecoding(lib: Library, block: seq<byte>)
    requires Lawful(lib) && DecompressWithTrailer(lib, block).Ok?
    ensures DecompressedSizeWithTrailer(lib, block).Ok?
    ensures |DecompressWithTrailer(lib, block).value| <= DecompressedSizeWithTrailer(lib, block).value
    ensures block[|block| - BLOCK_TRAILER_SIZE] != ToByte(NoCompression) ==>
              DecompressedSizeWithTrailer(lib, block).value <= MAX_DECOMPRESSED_BLOCK_SIZE
  {
    assert DecompressWithTrailer(lib, block) == Open(lib, block);
    HintCoversOpen(lib, block);
  }

  lemma HintCoversOpen(lib: Library, block: seq<byte>)
    requires Lawful(lib) && |block| >= BLOCK_TRAILER_SIZE && Open(lib, block).Ok?
    ensures DecompressedSizeWithTrailer(lib, block).Ok?
    ensures |Open(lib, block).value| <= DecompressedSizeWithTrailer(lib, block).value
    ensures block[|block| - BLOCK_TRAILER_SIZE] != ToByte(NoCompression) ==>
              DecompressedSizeWithTrailer(lib, block).value <= MAX_DECOMPRESSED_BLOCK_SIZE
  {
    var payload := |block| - BLOCK_TRAILER_SIZE;
    HintCoversDecoding(lib, block[..payload], FromByte(block[payload]).value);
  }

  // ---------------------------------------------------------------- encoding

  function CompressWith(lib: Library, data: seq<byte>, algo: Algo): Option<seq<byte>> {
    match algo
    case NoCompression => Some(data)
    case Lz4 => Some(lib.lz4Compress(data))
    case Zstd3 => lib.zstdCompress(data, 3)
    case Zstd9 => lib.zstdCompress(data, 9)
  }

  function Saturated(size: nat): nat {
    if size < U32_LIMIT then size else U32_LIMIT - 1
  }

  predicate WithinRatio(original: nat, compressed: nat, ratio: Ratio) {
    if original == 0 then false
    else
      match ratio
      case Rejecting => false
      case Unbounded => true
      case AtMost(limit) => Saturated(compressed) as real / Saturated(original) as real <= limit
  }

  predicate Qualifies(original: nat, compressed: nat, minSavings: nat, ratio: Ratio) {
    compressed < original && original - compressed >= minSavings && WithinRatio(original, compressed, ratio)
  }

  type Encoded = (seq<byte>, Algo)

  /** One turn of the adaptive loop: what `best` becomes after trying `algo`. */
  function Better(lib: Library, data: seq<byte>, minSavings: nat, ratio: Ratio, best: Option<Encoded>,
                  algo: Algo): Option<Encoded> {
    if algo.NoCompression? then best
    else
      match CompressWith(lib, data, algo)
      case None => best
      case Some(c) =>
        if Qualifies(|data|, |c|, minSavings, ratio) && (best.None? || |c| < |best.value.0|)
        then Some((c, algo)) else best
  }

  /** `best` after the whole list. */
  function Best(lib: Library, data: seq<byte>, minSavings: nat, ratio: Ratio, algos: seq<Algo>): Option<Encoded> {
    if algos == [] then None
    else Better(lib, data, minSavings, ratio, Best(lib, data, minSavings, ratio, algos[..|algos| - 1]),
                algos[|algos| - 1])
  }

  function Chosen(lib: Library, data: seq<byte>, minSavings: nat, ratio: Ratio, algos: seq<Algo>): Encoded {
    match Best(lib, data, minSavings, ratio, algos)
    case None => (data, NoCompression)
    case Some(encoded) => encoded
  }

  method CompressAdaptive(lib: Library, data: seq<byte>, minSavings: nat, ratio: Ratio, algos: seq<Algo>)
    returns (encoded: seq<byte>, algo: Algo)
    ensures (encoded, algo) == Chosen(lib, data, minSavings, ratio, algos)
  {
    var best: Option<Encoded> := None;
    for i := 0 to |algos|
      invariant best == Best(lib, data, minSavings, ratio, algos[..i])
    {
      assert algos[..i + 1][..i] == algos[..i];
      if algos[i] == NoCompression {
        continue;
      }
      var compressed := CompressWith(lib, data, algos[i]);
      if compressed.Some? {
        var size := |compressed.value|;
        if Qualifies(|data|, size, minSavings, ratio) && (best.None? || size < |best.value.0|) {
          best := Some((compressed.value, algos[i]));
        }
      }
    }
    assert algos[..|algos|] == algos;
    if best.None? {
      encoded, algo := data, NoCompression;
    } else {
      encoded, algo := best.value.0, best.value.1;
    }
  }

  function CompressBlock(lib: Library, data: seq<byte>, policy: Policy): Result<Encoded, CodecError> {
    if |data| < MIN_COMPRESSION_INPUT_BYTES then Ok((data, NoCompression))
    else
      match policy
      case Never => Ok((data, NoCompression))
      case Fixed(algo) =>
        (match CompressWith(lib, data, algo)
         case None => Err(EncodeFailed)
         case Some(c) => Ok((c, algo)))
      case Adaptive(minSavings, ratio, algorithms) => Ok(Chosen(lib, data, minSavings, ratio, algorithms))
  }

  function Frame(encoded: Encoded): (block: seq<byte>) {
    var body := encoded.0 + [ToByte(encoded.1)];
    body + LeBytes(Crc32c.Checksum(body), 4)
  }

  function CompressWithTrailer(lib: Library, data: seq<byte>, policy: Policy): Result<seq<byte>, CodecError> {
    match CompressBlock(lib, data, policy)
    case Err(e) => Err(e)
    case Ok(encoded) => Ok(Frame(encoded))
  }

  // ---------------------------------------------------------------- round trip

  /** `encoded` is what some algorithm made of `data`. */
  predicate Encodes(lib: Library, encoded: Encoded, data: seq<byte>) {
    CompressWith(lib, data, encoded.1) == Some(encoded.0)
  }

  lemma {:induction false} BestEncodes(lib: Library, data: seq<byte>, minSavings: nat, ratio: Ratio, algos: seq<Algo>)
    ensures
      var best := Best(lib, data, minSavings, ratio, algos);
      best.Some? ==> Encodes(lib, best.value, data)
  {
    if algos != [] { BestEncodes(lib, data, minSavings, ratio, algos[..|algos| - 1]); }
  }

  lemma BlockEncodes(lib: Library, data: seq<byte>, policy: Policy)
    requires CompressBlock(lib, data, policy).Ok?
    ensures Encodes(lib, CompressBlock(lib, data, policy).value, data)
  {
    if |data| >= MIN_COMPRESSION_INPUT_BYTES && policy.Adaptive? {
      BestEncodes(lib, data, policy.minSavings, policy.ratio, policy.algorithms);
    }
  }

  /** Decoding undoes an encoding exactly when the data was stored raw or is within the decoder's limit. */
  lemma DecompressEncoded(lib: Library, encoded: Encoded, data: seq<byte>)
    requires Lawful(lib) && Encodes(lib, encoded, data)
    ensures Decompress(lib, encoded.0, encoded.1) == Ok(data) <==>
            encoded.1.NoCompression? || |data| <= MAX_DECOMPRESSED_BLOCK_SIZE
    ensures !encoded.1.NoCompression? && MAX_DECOMPRESSED_BLOCK_SIZE < |data| < U32_LIMIT ==>
              Decompress(lib, encoded.0, encoded.1) == Err(DeclaredSizeTooLarge)
  {
    var (c, algo) := encoded;
    if algo.Lz4? && |data| < U32_LIMIT {
      assert |c| >= 4 && LeNumber(c[..4]) == |data|;
    } else if algo.Zstd3? || algo.Zstd9? {
      var level := if algo.Zstd3? then 3 else 9;
      assert lib.zstdCompress(data, level) == Some(c);
      assert lib.zstdContentSize(c) == Some(Some(|data|));
    }
    if Decompress(lib, c, algo).Ok? { HintCoversDecoding(lib, c, algo); }
  }

  lemma FramedIsSealed(encoded: Encoded)
    ensures Sealed(Frame(encoded))
  {
    var body := encoded.0 + [ToByte(encoded.1)];
    var block := Frame(encoded);
    assert Body(block) == body;
    assert block[|block| - 4..] == LeBytes(Crc32c.Checksum(body), 4);
    Pow2Of32();
    LeNumberOfBytes(Crc32c.Checksum(body), 4);
  }

  lemma OpenFrame(lib: Library, encoded: Encoded, trailer: seq<byte>)
    requires |trailer| == 4
    ensures Open(lib, encoded.0 + [ToByte(encoded.1)] + trailer) == Decompress(lib, encoded.0, encoded.1)
  {
    var block := encoded.0 + [ToByte(encoded.1)] + trailer;
    assert block[..|block| - BLOCK_TRAILER_SIZE] == encoded.0;
  }

  lemma DecodeFrame(lib: Library, encoded: Encoded)
    ensures DecompressWithTrailer(lib, Frame(encoded)) == Decompress(lib, encoded.0, encoded.1)
  {
    FramedIsSealed(encoded);
    OpenFrame(lib, encoded, LeBytes(Crc32c.Checksum(encoded.0 + [ToByte(encoded.1)]), 4));
  }

  // ---------------------------------------------------------------- damage to a stored block

  /**
    Damage inside any window of at most 32 adjacent bits is always reported,
    wherever it lies: in the payload, the algorithm byte, the stored checksum, or
    across their borders.
   */
  lemma BurstIsReported(lib: Library, block: seq<byte>, damaged: seq<byte>, from: nat, to: nat)
    requires Sealed(block) && damaged != block
    requires Crc32c.AgreeOutside(damaged, block, from, to) && to - from <= 32
    ensures DecompressWithTrailer(lib, damaged) == Err(ChecksumMismatch)
  {
    if Sealed(damaged) { SealedBlocksAgree(block, damaged, from, to); }
  }

  lemma SealedBlocksAgree(block: seq<byte>, damaged: seq<byte>, from: nat, to: nat)
    requires Sealed(block) && Sealed(damaged)
    requires Crc32c.AgreeOutside(damaged, block, from, to) && to - from <= 32
    ensures damaged == block
  {
    var n := |block| - 4;
    var a, b, s, t := Body(damaged), Body(block), damaged[n..], block[n..];
    assert damaged == a + s && block == b + t;
    Crc32c.SealDetectsBurst(a, s, b, t, from, to);
  }

  /** Damage to any odd number of bits is always reported too, wherever these bits lie. */
  lemma OddDamageIsReported(lib: Library, block: seq<byte>, damaged: seq<byte>)
    requires Sealed(block) && |damaged| == |block|
    requires Crc32c.Changed(BitString(damaged), BitString(block)) % 2 == 1
    ensures DecompressWithTrailer(lib, damaged) == Err(ChecksumMismatch)
  {
    if Sealed(damaged) { SealedBlocksDifferEvenly(block, damaged); }
  }

  lemma SealedBlocksDifferEvenly(block: seq<byte>, damaged: seq<byte>)
    requires Sealed(block) && Sealed(damaged) && |damaged| == |block|
    ensures Crc32c.Changed(BitString(damaged), BitString(block)) % 2 == 0
  {
    var n := |block| - 4;
    var a, b, s, t := Body(damaged), Body(block), damaged[n..], block[n..];
    assert damaged == a + s && block == b + t;
    Crc32c.SealDetectsOdd(a, s, b, t);
  }

  /** Bursts include every change to at most four adjacent bytes. */
  lemma FourByteDamageIsReported(lib: Library, block: seq<byte>, damaged: seq<byte>, from: nat, to: nat)
    requires Sealed(block) && |damaged| == |block| && damaged != block
    requires from <= to <= |block| && to - from <= 4
    requires forall i :: 0 <= i < |block| && !(from <= i < to) ==> damaged[i] == block[i]
    ensures DecompressWithTrailer(lib, damaged) == Err(ChecksumMismatch)
  {
    assert damaged[..from] == block[..from] && damaged[to..] == block[to..];
    Crc32c.AgreeOutsideBytes(damaged, block, from, to);
    BurstIsReported(lib, block, damaged, 8 * from, 8 * to);
  }

  /** And every change confined to the stored checksum. */
  lemma TrailerDamageIsReported(lib: Library, block: seq<byte>, damaged: seq<byte>)
    requires Sealed(block) && |damaged| == |block| && damaged != block
    requires Body(damaged) == Body(block)
    ensures DecompressWithTrailer(lib, damaged) == Err(ChecksumMismatch)
  {
    var n := |block| - 4;
    forall i | 0 <= i < n ensures damaged[i] == block[i] {
      assert Body(damaged)[i] == Body(block)[i];
    }
    FourByteDamageIsReported(lib, block, damaged, n, |block|);
  }

  // ---------------------------------------------------------------- adaptive selection

  lemma QuotientMonotone(x: real, y: real, n: real)
    requires x <= y && n > 0.0
    ensures x / n <= y / n
  {
    var p, q := x / n, y / n;
    assert p * n == x && q * n == y;
    if p > q { assert false; }
  }

  /** Accepting a size means accepting every smaller one. */
  lemma QualifiesDownward(original: nat, size: nat, smaller: nat, minSavings: nat, ratio: Ratio)
    requires smaller <= size && Qualifies(original, size, minSavings, ratio)
    ensures Qualifies(original, smaller, minSavings, ratio)
  {
    if ratio.AtMost? {
      QuotientMonotone(Saturated(smaller) as real, Saturated(size) as real, Saturated(original) as real);
    }
  }

  /** The exact threshold, multiplied out; sizes beyond 32 bits count as the largest that fits. */
  lemma QualifiesExactly(original: nat, size: nat, minSavings: nat, ratio: Ratio)
    ensures Qualifies(original, size, minSavings, ratio) <==>
            && size < original && size + minSavings <= original && !ratio.Rejecting?
            && (ratio.AtMost? ==>
                  (if size < U32_LIMIT then size else U32_LIMIT - 1) as real
                  <= ratio.limit * (if original < U32_LIMIT then original else U32_LIMIT - 1) as real)
  {
    if size < original && ratio.AtMost? {
      QuotientBound(Saturated(size) as real, Saturated(original) as real, ratio.limit);
    }
  }

  lemma QuotientBound(x: real, n: real, limit: real)
    requires n > 0.0
    ensures x / n <= limit <==> x <= limit * n
  {
    var q := x / n;
    assert q * n == x;
    if q <= limit { assert q * n <= limit * n; } else { assert q * n > limit * n; }
  }

  predicate Succeeds(lib: Library, data: seq<byte>, algo: Algo) {
    !algo.NoCompression? && CompressWith(lib, data, algo).Some?
  }

  function Size(lib: Library, data: seq<byte>, algo: Algo): nat
    requires Succeeds(lib, data, algo)
  {
    |CompressWith(lib, data, algo).value|
  }

  /** Position `i` holds the earliest algorithm with the smallest output. */
  ghost predicate Smallest(lib: Library, data: seq<byte>, algos: seq<Algo>, i: nat) {
    && i < |algos| && Succeeds(lib, data, algos[i])
    && (forall j :: 0 <= j < |algos| && Succeeds(lib, data, algos[j]) ==>
          Size(lib, data, algos[i]) <= Size(lib, data, algos[j]))
    && (forall j :: 0 <= j < i && Succeeds(lib, data, algos[j]) ==>
          Size(lib, data, algos[i]) < Size(lib, data, algos[j]))
  }

  /** A list with any succeeding algorithm has one earliest smallest. */
  lemma {:induction false} SmallestExists(lib: Library, data: seq<byte>, algos: seq<Algo>) returns (i: nat)
    requires exists j :: 0 <= j < |algos| && Succeeds(lib, data, algos[j])
    ensures Smallest(lib, data, algos, i)
  {
    var n := |algos| - 1;
    var init := algos[..n];
    if exists j :: 0 <= j < n && Succeeds(lib, data, init[j]) {
      i := SmallestExists(lib, data, init);
      assert init[i] == algos[i];
      if Succeeds(lib, data, algos[n]) && Size(lib, data, algos[n]) < Size(lib, data, algos[i]) { i := n; }
      forall j | 0 <= j < n && Succeeds(lib, data, algos[j])
        ensures Size(lib, data, algos[i]) <= Size(lib, data, algos[j])
        ensures j < i ==> Size(lib, data, algos[i]) < Size(lib, data, algos[j])
      {
        assert init[j] == algos[j];
      }
    } else {
      assert forall j :: 0 <= j < n ==> init[j] == algos[j];
      i := n;
    }
  }

  /**
    Selection is optimal: if the smallest output over all succeeding algorithms
    qualifies it is chosen, ties going to the earliest; otherwise nothing is.
   */
  lemma {:induction false} BestIsSmallest(lib: Library, data: seq<byte>, minSavings: nat, ratio: Ratio,
                                          algos: seq<Algo>, i: nat)
    requires Smallest(lib, data, algos, i)
    ensures Best(lib, data, minSavings, ratio, algos) ==
            if Qualifies(|data|, Size(lib, data, algos[i]), minSavings, ratio)
            then Some((CompressWith(lib, data, algos[i]).value, algos[i])) else None
  {
    var n := |algos| - 1;
    var init := algos[..n];
    assert forall j :: 0 <= j < n ==> init[j] == algos[j];
    if i < n {
      assert Smallest(lib, data, init, i);
      BestIsSmallest(lib, data, minSavings, ratio, init, i);
      LaterIsNotBetter(lib, data, minSavings, ratio, algos[i], algos[n]);
    } else if exists j :: 0 <= j < n && Succeeds(lib, data, init[j]) {
      var k := SmallestExists(lib, data, init);
      BestIsSmallest(lib, data, minSavings, ratio, init, k);
      if Qualifies(|data|, Size(lib, data, algos[k]), minSavings, ratio) {
        QualifiesDownward(|data|, Size(lib, data, algos[k]), Size(lib, data, algos[n]), minSavings, ratio);
      }
    } else {
      NothingBest(lib, data, minSavings, ratio, init);
    }
  }

  lemma LaterIsNotBetter(lib: Library, data: seq<byte>, minSavings: nat, ratio: Ratio, first: Algo, later: Algo)
    requires Succeeds(lib, data, first)
    requires Succeeds(lib, data, later) ==> Size(lib, data, first) <= Size(lib, data, later)
    ensures
      var best := if Qualifies(|data|, Size(lib, data, first), minSavings, ratio)
                  then Some((CompressWith(lib, data, first).value, first)) else None;
      Better(lib, data, minSavings, ratio, best, later) == best
  {
    if Succeeds(lib, data, later) && Qualifies(|data|, Size(lib, data, later), minSavings, ratio) {
      QualifiesDownward(|data|, Size(lib, data, later), Size(lib, data, first), minSavings, ratio);
    }
  }

  lemma {:induction false} NothingBest(lib: Library, data: seq<byte>, minSavings: nat, ratio: Ratio, algos: seq<Algo>)
    requires forall j :: 0 <= j < |algos| ==> !Succeeds(lib, data, algos[j])
    ensures Best(lib, data, minSavings, ratio, algos) == None
  {
    if algos != [] { NothingBest(lib, data, minSavings, ratio, algos[..|algos| - 1]); }
  }

  /** The stored form never exceeds the input, and its length does not depend on the order or repetition of the list. */
  lemma ChosenLength(lib: Library, data: seq<byte>, minSavings: nat, ratio: Ratio, algos: seq<Algo>, others: seq<Algo>)
    requires forall a :: a in algos <==> a in others
    ensures |Chosen(lib, data, minSavings, ratio, algos).0| <= |data|
    ensures |Chosen(lib, data, minSavings, ratio, algos).0| == |Chosen(lib, data, minSavings, ratio, others).0|
  {
    if exists j :: 0 <= j < |algos| && Succeeds(lib, data, algos[j]) {
      var i := SmallestExists(lib, data, algos);
      assert algos[i] in others;
      var k := SmallestExists(lib, data, others);
      assert others[k] in algos;
      BestIsSmallest(lib, data, minSavings, ratio, algos, i);
      BestIsSmallest(lib, data, minSavings, ratio, others, k);
    } else {
      forall j | 0 <= j < |others| ensures !Succeeds(lib, data, others[j]) { assert others[j] in algos; }
      NothingBest(lib, data, minSavings, ratio, algos);
      NothingBest(lib, data, minSavings, ratio, others);
    }
  }

  // ---------------------------------------------------------------- the round trip, by input

  /** The policy compresses this data: it is long enough, and the policy names an algorithm that pays. */
  predicate Compresses(lib: Library, data: seq<byte>, policy: Policy) {
    && |data| >= MIN_COMPRESSION_INPUT_BYTES
    && match policy
       case Never => false
       case Fixed(algo) => !algo.NoCompression?
       case Adaptive(minSavings, ratio, algorithms) =>
         exists j :: 0 <= j < |algorithms| && Pays(lib, data, minSavings, ratio, algorithms[j])
  }

  predicate Pays(lib: Library, data: seq<byte>, minSavings: nat, ratio: Ratio, algo: Algo) {
    Succeeds(lib, data, algo) && Qualifies(|data|, Size(lib, data, algo), minSavings, ratio)
  }

  lemma ChosenIsRaw(lib: Library, data: seq<byte>, minSavings: nat, ratio: Ratio, algos: seq<Algo>)
    ensures Chosen(lib, data, minSavings, ratio, algos).1.NoCompression? <==>
            forall j :: 0 <= j < |algos| ==> !Pays(lib, data, minSavings, ratio, algos[j])
  {
    if exists j :: 0 <= j < |algos| && Succeeds(lib, data, algos[j]) {
      var i := SmallestExists(lib, data, algos);
      BestIsSmallest(lib, data, minSavings, ratio, algos, i);
      forall j | 0 <= j < |algos| && Pays(lib, data, minSavings, ratio, algos[j])
        ensures Pays(lib, data, minSavings, ratio, algos[i])
      {
        QualifiesDownward(|data|, Size(lib, data, algos[j]), Size(lib, data, algos[i]), minSavings, ratio);
      }
    } else {
      NothingBest(lib, data, minSavings, ratio, algos);
    }
  }

  lemma RawExactly(lib: Library, data: seq<byte>, policy: Policy)
    requires CompressBlock(lib, data, policy).Ok?
    ensures CompressBlock(lib, data, policy).value.1.NoCompression? <==> !Compresses(lib, data, policy)
  {
    if policy.Adaptive? { ChosenIsRaw(lib, data, policy.minSavings, policy.ratio, policy.algorithms); }
  }

  /** What algorithm `algo` makes of `data`, library call by library call. */
  predicate OutputOf(lib: Library, data: seq<byte>, algo: Algo, output: Option<seq<byte>>) {
    match algo
    case NoCompression => output == Some(data)
    case Lz4 => output == Some(lib.lz4Compress(data))
    case Zstd3 => output == lib.zstdCompress(data, 3)
    case Zstd9 => output == lib.zstdCompress(data, 9)
  }

  /** A framed block whose stored code is that of `algo` and whose payload is its output. */
  predicate FramedWith(lib: Library, data: seq<byte>, algo: Algo, block: seq<byte>) {
    && |block| >= BLOCK_TRAILER_SIZE && FromByte(block[|block| - BLOCK_TRAILER_SIZE]) == Some(algo)
    && OutputOf(lib, data, algo, Some(block[..|block| - BLOCK_TRAILER_SIZE]))
  }

  lemma FrameIsFramedWith(lib: Library, data: seq<byte>, encoded: Encoded)
    requires OutputOf(lib, data, encoded.1, Some(encoded.0))
    ensures FramedWith(lib, data, encoded.1, Frame(encoded))
  {
    var block := Frame(encoded);
    assert block[..|block| - BLOCK_TRAILER_SIZE] == encoded.0;
    CodesAreExact(ToByte(encoded.1), encoded.1);
  }

  /** Short data, and all data under the policy that never compresses, is framed as it is. */
  lemma ShortOrNeverIsRaw(lib: Library, data: seq<byte>, policy: Policy)
    requires |data| < 256 || policy.Never?
    ensures CompressWithTrailer(lib, data, policy).Ok?
    ensures FramedWith(lib, data, NoCompression, CompressWithTrailer(lib, data, policy).value)
  {
    FrameIsFramedWith(lib, data, (data, NoCompression));
  }

  /** A fixed policy uses the algorithm it names, and fails exactly when that library call does. */
  lemma FixedUsesItsAlgorithm(lib: Library, data: seq<byte>, algo: Algo)
    requires |data| >= 256
    ensures CompressWithTrailer(lib, data, Fixed(algo)).Err? <==> OutputOf(lib, data, algo, None)
    ensures CompressWithTrailer(lib, data, Fixed(algo)).Ok? ==>
              FramedWith(lib, data, algo, CompressWithTrailer(lib, data, Fixed(algo)).value)
  {
    var output := CompressWith(lib, data, algo);
    if output.Some? { FrameIsFramedWith(lib, data, (output.value, algo)); }
  }

  /**
    An adaptive policy never fails: it frames the output of the algorithm with
    the smallest one, the earliest on ties, if that output qualifies, and the
    data itself otherwise.
   */
  lemma AdaptiveKeepsTheSmallest(lib: Library, data: seq<byte>, policy: Policy, i: nat)
    requires |data| >= 256 && policy.Adaptive?
    ensures CompressWithTrailer(lib, data, policy).Ok?
    ensures Smallest(lib, data, policy.algorithms, i)
            && Qualifies(|data|, Size(lib, data, policy.algorithms[i]), policy.minSavings, policy.ratio) ==>
              FramedWith(lib, data, policy.algorithms[i], CompressWithTrailer(lib, data, policy).value)
    ensures !Compresses(lib, data, policy) ==>
              FramedWith(lib, data, NoCompression, CompressWithTrailer(lib, data, policy).value)
  {
    var encoded := CompressBlock(lib, data, policy).value;
    BlockEncodes(lib, data, policy);
    RawExactly(lib, data, policy);
    FrameIsFramedWith(lib, data, encoded);
    if Smallest(lib, data, policy.algorithms, i) {
      BestIsSmallest(lib, data, policy.minSavings, policy.ratio, policy.algorithms, i);
    }
  }

  /** The reservation for a framed block is the length of its data, exactly when the block will decode. */
  lemma ReservationIsLength(lib: Library, data: seq<byte>, policy: Policy)
    requires Lawful(lib) && CompressWithTrailer(lib, data, policy).Ok? && |data| < U32_LIMIT
    ensures DecompressedSizeWithTrailer(lib, CompressWithTrailer(lib, data, policy).value) ==
            if |data| <= MAX_DECOMPRESSED_BLOCK_SIZE || !Compresses(lib, data, policy)
            then Ok(|data|) else Err(DeclaredSizeTooLarge)
  {
    var encoded := CompressBlock(lib, data, policy).value;
    BlockEncodes(lib, data, policy);
    RawExactly(lib, data, policy);
    HintOfEncoded(lib, encoded, data);
    SizeOfFrame(lib, encoded.0, encoded.1, LeBytes(Crc32c.Checksum(encoded.0 + [ToByte(encoded.1)]), 4));
  }

  lemma SizeOfFrame(lib: Library, payload: seq<byte>, algo: Algo, trailer: seq<byte>)
    requires |trailer| == 4
    ensures
      var hint := LenHint(lib, algo, payload);
      DecompressedSizeWithTrailer(lib, payload + [ToByte(algo)] + trailer) ==
      if hint.Ok? then Ok(hint.value.reservationLimit) else Err(hint.error)
  {
    var block := payload + [ToByte(algo)] + trailer;
    assert block[..|block| - BLOCK_TRAILER_SIZE] == payload && block[|block| - BLOCK_TRAILER_SIZE] == ToByte(algo);
    CodesAreExact(ToByte(algo), algo);
  }

  lemma HintOfEncoded(lib: Library, encoded: Encoded, data: seq<byte>)
    requires Lawful(lib) && Encodes(lib, encoded, data) && |data| < U32_LIMIT
    ensures LenHint(lib, encoded.1, encoded.0) ==
            if encoded.1.NoCompression? || |data| <= MAX_DECOMPRESSED_BLOCK_SIZE
            then Ok(Hint(|data|, |data|)) else Err(DeclaredSizeTooLarge)
  {
    var (c, algo) := encoded;
    if algo.Lz4? {
      assert |c| >= 4 && LeNumber(c[..4]) == |data|;
    } else if algo.Zstd3? || algo.Zstd9? {
      var level := if algo.Zstd3? then 3 else 9;
      assert lib.zstdCompress(data, level) == Some(c);
      assert lib.zstdContentSize(c) == Some(Some(|data|));
    }
  }

  /** A frame that declares no size is decoded into at most 64 KiB, under the largest reservation there is. */
  lemma UnsizedFrame(lib: Library, c: seq<byte>, algo: Algo)
    requires (algo.Zstd3? || algo.Zstd9?) && lib.zstdContentSize(c) == Some(None)
    ensures Decompress(lib, c, algo).Ok? <==> lib.zstdDecompress(c, 0x1_0000).Some?
    ensures LenHint(lib, algo, c).Ok? && LenHint(lib, algo, c).value.reservationLimit == 0x400_0000
  {
  }

  /** A sealed block is refused for its code exactly when that is none of the four. */
  lemma UnknownCodeIsReported(lib: Library, block: seq<byte>)
    requires Sealed(block)
    ensures DecompressWithTrailer(lib, block) == Err(UnknownAlgorithm) <==> block[|block| - BLOCK_TRAILER_SIZE] > 3
  {
    assert DecompressWithTrailer(lib, block) == Open(lib, block);
    OpenKnowsCodes(lib, block);
  }

  lemma OpenKnowsCodes(lib: Library, block: seq<byte>)
    requires |block| >= BLOCK_TRAILER_SIZE
    ensures Open(lib, block) == Err(UnknownAlgorithm) <==> block[|block| - BLOCK_TRAILER_SIZE] > 3
  {
    CodesAreExact(block[|block| - BLOCK_TRAILER_SIZE], NoCompression);
  }

  /**
    Framing round trip, for every policy and data of any length: a framed block
    decodes to its data exactly when the data is at most 64 MiB long or the
    policy does not compress it.
   */
  lemma FrameRoundTrip(lib: Library, data: seq<byte>, policy: Policy)
    requires Lawful(lib) && CompressWithTrailer(lib, data, policy).Ok?
    ensures DecompressWithTrailer(lib, CompressWithTrailer(lib, data, policy).value) == Ok(data) <==>
            |data| <= MAX_DECOMPRESSED_BLOCK_SIZE || !Compresses(lib, data, policy)
    ensures Compresses(lib, data, policy) && MAX_DECOMPRESSED_BLOCK_SIZE < |data| < U32_LIMIT ==>
              DecompressWithTrailer(lib, CompressWithTrailer(lib, data, policy).value) == Err(DeclaredSizeTooLarge)
  {
    var encoded := CompressBlock(lib, data, policy).value;
    BlockEncodes(lib, data, policy);
    DecodeFrame(lib, encoded);
    DecompressEncoded(lib, encoded, data);
    RawExactly(lib, data, policy);
  }

  /** One byte over the limit: framing succeeds, and the block it wrote is refused. */
  lemma LargeBlockIsRefused(lib: Library) returns (data: seq<byte>)
    requires Lawful(lib)
    ensures |data| == MAX_DECOMPRESSED_BLOCK_SIZE + 1 && CompressWithTrailer(lib, data, Fixed(Lz4)).Ok?
    ensures DecompressWithTrailer(lib, CompressWithTrailer(lib, data, Fixed(Lz4)).value) == Err(DeclaredSizeTooLarge)
  {
    data := seq(MAX_DECOMPRESSED_BLOCK_SIZE + 1, _ => 0);
    FrameRoundTrip(lib, data, Fixed(Lz4));
  }

  // ---------------------------------------------------------------- WAL values

  const SAMPLE_LEN := 256
  const MAX_DISTINCT_FOR_COMPRESSIBLE := 128

  function Distinct(sample: seq<byte>): set<byte> {
    set b | b in sample
  }

  predicate LikelyCompressible(value: seq<byte>) {
    value != [] &&
    |Distinct(value[..if |value| < SAMPLE_LEN then |value| else SAMPLE_LEN])| <= MAX_DISTINCT_FOR_COMPRESSIBLE
  }

  lemma OneMoreByte(sample: seq<byte>, i: nat)
    requires i < |sample|
    ensures Distinct(sample[..i + 1]) == Distinct(sample[..i]) + {sample[i]}
    ensures |Distinct(sample[..i + 1])| ==
            |Distinct(sample[..i])| + (if sample[i] in Distinct(sample[..i]) then 0 else 1)
  {
    var before := Distinct(sample[..i]);
    assert sample[..i + 1] == sample[..i] + [sample[i]];
    assert Distinct(sample[..i + 1]) == before + {sample[i]};
    if sample[i] in before { assert before + {sample[i]} == before; }
  }

  lemma {:induction false} SmallerSubset(a: set<byte>, b: set<byte>)
    requires a <= b
    ensures |a| <= |b|
  {
    if a != {} {
      var x :| x in a;
      SmallerSubset(a - {x}, b - {x});
    }
  }

  /** A value looks compressible exactly when 128 byte values suffice for its first 256 bytes. */
  lemma CompressibleExactly(value: seq<byte>)
    ensures LikelyCompressible(value) <==>
            value != [] && exists few: set<byte> :: |few| <= 128 && FirstAmong(value, 256, few)
  {
    var seen := Distinct(value[..if |value| < SAMPLE_LEN then |value| else SAMPLE_LEN]);
    assert FirstAmong(value, 256, seen);
    forall few: set<byte> | FirstAmong(value, 256, few) ensures |seen| <= |few| {
      SmallerSubset(seen, few);
    }
  }

  /** The first `n` bytes, or all if there are fewer, are among these. */
  ghost predicate FirstAmong(value: seq<byte>, n: nat, few: set<byte>) {
    forall i :: 0 <= i < n && i < |value| ==> value[i] in few
  }

  method IsLikelyCompressible(value: seq<byte>) returns (likely: bool)
    ensures likely == LikelyCompressible(value)
  {
    if |value| == 0 { return false; }
    var sample := value[..if |value| < SAMPLE_LEN then |value| else SAMPLE_LEN];
    var seen := new bool[256](_ => false);
    var distinct := 0;
    for i := 0 to |sample|
      invariant forall b: byte :: seen[b] <==> b in Distinct(sample[..i])
      invariant distinct == |Distinct(sample[..i])|
    {
      OneMoreByte(sample, i);
      if !seen[sample[i]] {
        seen[sample[i]] := true;
        distinct := distinct + 1;
      }
    }
    assert sample[..|sample|] == sample;
    return distinct <= MAX_DISTINCT_FOR_COMPRESSIBLE;
  }

  function CompressWalValue(lib: Library, value: seq<byte>): (seq<byte>, Option<byte>) {
    if |value| < MIN_COMPRESSION_INPUT_BYTES || !LikelyCompressible(value) then (value, None)
    else
      var compressed := lib.lz4Compress(value);
      if |compressed| >= |value| then (value, None) else (compressed, Some(ToByte(Lz4)))
  }

  function DecompressWalValue(lib: Library, stored: seq<byte>, marker: Option<byte>): Result<seq<byte>, CodecError> {
    if marker.None? || marker.value == 0 then Ok(stored)
    else
      match FromByte(marker.value)
      case None => Err(UnknownAlgorithm)
      case Some(algo) => Decompress(lib, stored, algo)
  }

  /** The value is worth compressing and compression shortens it. */
  predicate WalCompresses(lib: Library, value: seq<byte>) {
    && |value| >= MIN_COMPRESSION_INPUT_BYTES && LikelyCompressible(value)
    && |lib.lz4Compress(value)| < |value|
  }

  /**
    WAL values of any length come back exactly when at most 64 MiB long or not
    compressed; the stored form is never longer, and is marked exactly when
    strictly shorter.
   */
  lemma WalRoundTrip(lib: Library, value: seq<byte>)
    requires Lawful(lib)
    ensures
      var (stored, marker) := CompressWalValue(lib, value);
      && |stored| <= |value|
      && (marker.Some? <==> |stored| < |value|)
      && (if WalCompresses(lib, value) then stored == lib.lz4Compress(value) && marker == Some(1)
          else stored == value && marker.None?)
      && (DecompressWalValue(lib, stored, marker) == Ok(value) <==>
            |value| <= MAX_DECOMPRESSED_BLOCK_SIZE || !WalCompresses(lib, value))
  {
    var (stored, marker) := CompressWalValue(lib, value);
    if marker.Some? { DecompressEncoded(lib, (stored, Lz4), value); }
  }

  /** A WAL marker names the algorithm of its code; no marker means none. */
  lemma WalMarkerIsCode(lib: Library, stored: seq<byte>, marker: Option<byte>, algo: Algo)
    ensures marker.None? ==> DecompressWalValue(lib, stored, marker) == Ok(stored)
    ensures marker == Some(ToByte(algo)) ==> DecompressWalValue(lib, stored, marker) == Decompress(lib, stored, algo)
    ensures marker.Some? && marker.value > 3 ==> DecompressWalValue(lib, stored, marker) == Err(UnknownAlgorithm)
  {
    if marker.Some? { CodesAreExact(marker.value, algo); }
  }

  /** What is reported of a damaged header: each error for its own cause, and for nothing else. */
  lemma HeaderErrors(lib: Library, c: seq<byte>, algo: Algo)
    ensures Decompress(lib, c, Lz4) == Err(MissingSizePrefix) <==> |c| < 4
    ensures Decompress(lib, c, Lz4) == Err(DeclaredSizeTooLarge) <==> |c| >= 4 && LeNumber(c[..4]) > 0x400_0000
    ensures algo.Zstd3? || algo.Zstd9? ==>
              (Decompress(lib, c, algo) == Err(ContentSizeUnavailable) <==> lib.zstdContentSize(c).None?)
    ensures algo.Zstd3? || algo.Zstd9? ==>
              (Decompress(lib, c, algo) == Err(DeclaredSizeTooLarge) <==>
                 lib.zstdContentSize(c).Some? && lib.zstdContentSize(c).value.Some?
                 && lib.zstdContentSize(c).value.value > 0x400_0000)
  {
  }

  // ---------------------------------------------------------------- a value that does not come back

  predicate AllZero(data: seq<byte>) {
    forall i :: 0 <= i < |data| ==> data[i] == 0
  }

  /** Runs of zeros are stored as their length. */
  function RunCompress(data: seq<byte>): seq<byte> {
    LeBytes(|data|, 4) + (if AllZero(data) then [0] else [1] + data)
  }

  function RunDecompress(c: seq<byte>): Option<seq<byte>> {
    if |c| == 5 && c[4] == 0 then Some(seq(LeNumber(c[..4]), _ => 0))
    else if |c| >= 5 && c[4] == 1 && LeNumber(c[..4]) == |c| - 5 then Some(c[5..])
    else None
  }

  /** A lawful library that shortens. */
  ghost function RunLength(): Library {
    Verbatim().(lz4Compress := RunCompress, lz4Decompress := RunDecompress)
  }

  lemma RunRoundTrip(data: seq<byte>)
    requires |data| < U32_LIMIT
    ensures |RunCompress(data)| >= 4 && LeNumber(RunCompress(data)[..4]) == |data|
    ensures RunDecompress(RunCompress(data)) == Some(data)
  {
    var c := RunCompress(data);
    Pow2Of32();
    LeNumberOfBytes(|data|, 4);
    assert c[..4] == LeBytes(|data|, 4);
    if AllZero(data) {
      assert data == seq(|data|, _ => 0);
    } else {
      assert c[5..] == data;
    }
  }

  lemma RunLengthIsLawful()
    ensures Lawful(RunLength())
  {
    VerbatimIsLawful();
    SameZstd(Verbatim(), RunLength());
    RunsAreLawful(RunLength());
  }

  lemma SameZstd(lib: Library, other: Library)
    requires LawfulZstd(lib) && other.zstdCompress == lib.zstdCompress
    requires other.zstdContentSize == lib.zstdContentSize && other.zstdDecompress == lib.zstdDecompress
    ensures LawfulZstd(other)
  {
  }

  lemma RunsAreLawful(lib: Library)
    requires lib.lz4Compress == RunCompress && lib.lz4Decompress == RunDecompress
    ensures LawfulLz4(lib)
  {
    forall data: seq<byte> | |data| < U32_LIMIT
      ensures
        var c := lib.lz4Compress(data);
        |c| >= 4 && LeNumber(c[..4]) == |data| && lib.lz4Decompress(c) == Some(data)
    {
      RunRoundTrip(data);
    }
  }

  /** A stored WAL value one byte over the limit that is refused on the way back. */
  lemma LargeWalValueIsRefused() returns (lib: Library, value: seq<byte>)
    ensures Lawful(lib) && |value| == MAX_DECOMPRESSED_BLOCK_SIZE + 1
    ensures
      var (stored, marker) := CompressWalValue(lib, value);
      DecompressWalValue(lib, stored, marker) != Ok(value)
  {
    lib, value := RunLength(), seq(MAX_DECOMPRESSED_BLOCK_SIZE + 1, _ => 0);
    RunLengthIsLawful();
    var sample := value[..SAMPLE_LEN];
    assert sample[0] == 0;
    assert Distinct(sample) == {0};
    assert AllZero(value) && |lib.lz4Compress(value)| == 5;
    WalRoundTrip(lib, value);
  }
}
