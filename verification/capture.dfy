/** The pure part of MainPage.read on the 8-bit path: the byte buffer
    becomes samples, the samples are cut into transform-sized chunks, and
    each chunk becomes complex numbers; with IsPowerOfTwo, the ulong test
    the chunking relies on. */
module Capture {
  import opened Bits
  import opened Fourier
  import opened Config
  import opened ComplexNumbers

  newtype byte = x: int | 0 <= x < 256

  /** The configured chunk length is 2^13, a length the transform accepts. */
  lemma FftLengthIsValid()
    ensures FftLength == Pow2(13)
    ensures ValidLength(FftLength) && Log2(FftLength) == 13
  {
    Pow2Values();
    Pow2IsPowerOf2(13);
  }

  /** 2^64: ulong arithmetic wraps modulo this. */
  const U64Modulus: int := 0x1_0000_0000_0000_0000

  /* ---------------------------------------------------------------------
     IsPowerOfTwo
     --------------------------------------------------------------------- */

  /** Bitwise and of two naturals. */
  function BitAnd(a: nat, b: nat): nat {
    if a == 0 || b == 0 then 0
    else 2 * BitAnd(a / 2, b / 2) + (if a % 2 == 1 && b % 2 == 1 then 1 else 0)
  }

  /** IsPowerOfTwo(ulong x): x & (x - 1) is zero, where x - 1 wraps to
      2^64 - 1 when x is 0. */
  function IsPowerOfTwo(x: nat): bool
    requires x < U64Modulus
  {
    BitAnd(x, if x == 0 then U64Modulus - 1 else x - 1) == 0
  }

  lemma {:induction false} BitAndSelf(a: nat)
    ensures BitAnd(a, a) == a
  {
    if a != 0 {
      BitAndSelf(a / 2);
    }
  }

  /** Clearing the lowest set bit leaves nothing exactly for powers of two. */
  lemma {:induction false} LowestBitCleared(x: nat)
    requires x >= 1
    ensures BitAnd(x, x - 1) == 0 <==> IsPowerOf2(x)
    decreases x
  {
    if x == 1 {
    } else if x % 2 == 0 {
      assert (x - 1) / 2 == x / 2 - 1 && (x - 1) % 2 == 1;
      LowestBitCleared(x / 2);
    } else {
      assert (x - 1) / 2 == x / 2 && (x - 1) % 2 == 0;
      BitAndSelf(x / 2);
    }
  }

  /** The wrap at zero makes IsPowerOfTwo accept 0 besides the powers of two. */
  lemma IsPowerOfTwoMeans(x: nat)
    requires x < U64Modulus
    ensures IsPowerOfTwo(x) <==> x == 0 || IsPowerOf2(x)
  {
    if x >= 1 {
      LowestBitCleared(x);
    }
  }

  /* ---------------------------------------------------------------------
     Bytes to samples
     --------------------------------------------------------------------- */

  /** The Int16 range the samples are stored in. */
  predicate IsInt16(v: int) {
    -0x8000 <= v < 0x8000
  }

  /** The conversion read applies: pairs of bytes for a 16-bit format, one
      byte per sample for any other. */
  datatype SamplePath = Int16Pairs | Bytes

  function PathFor(bitsPerSample: int): SamplePath {
    if bitsPerSample == 16 then Int16Pairs else Bytes
  }

  /** The capture format is chosen with preferredBitsPerSample bits, so read
      takes the byte path modelled here, and only a 16-bit format would not. */
  lemma PreferredFormatReadsBytes(bitsPerSample: int)
    ensures bitsPerSample == PreferredBitsPerSample ==> PathFor(bitsPerSample) == Bytes
    ensures PathFor(bitsPerSample) == Int16Pairs <==> bitsPerSample == 16
  {
  }

  /** The 8-bit path: sample i is byte i, widened. */
  method ByteSamples(data: seq<byte>) returns (samples: seq<int>)
    ensures |samples| == |data|
    ensures forall i :: 0 <= i < |samples| ==> 0 <= samples[i] < 256 && IsInt16(samples[i])
    ensures forall i :: 0 <= i < |samples| ==> samples[i] == data[i] as int
  {
    samples := [];
    var i := 0;
    while i < |data|
      invariant 0 <= i <= |data| && |samples| == i
      invariant forall k :: 0 <= k < i ==> samples[k] == data[k] as int
    {
      samples := samples + [data[i] as int];
      i := i + 1;
    }
  }

  /* ---------------------------------------------------------------------
     Chunking
     --------------------------------------------------------------------- */

  /** The chunk sizes the loop takes from `length` samples: full FftLength
      blocks while more than FftLength remain, then the rest if IsPowerOfTwo
      accepts it. */
  function ChunkPlan(length: nat): (plan: seq<int>)
    requires length < U64Modulus
    decreases length
  {
    if length > FftLength then [FftLength] + ChunkPlan(length - FftLength)
    else if IsPowerOfTwo(length) then [length]
    else []
  }

  function Sum(s: seq<int>): int {
    if |s| == 0 then 0 else Sum(s[..|s| - 1]) + s[|s| - 1]
  }

  lemma {:induction false} SumPrepend(x: int, s: seq<int>)
    ensures Sum([x] + s) == x + Sum(s)
    decreases |s|
  {
    if |s| > 0 {
      var t := s[..|s| - 1];
      assert ([x] + s)[..|s|] == [x] + t;
      SumPrepend(x, t);
    }
  }

  /** The samples left unprocessed. */
  function Leftover(length: nat): int
    requires length < U64Modulus
  {
    length - Sum(ChunkPlan(length))
  }

  /** Every chunk but the last is FftLength long, and the last is FftLength
      or a shorter power of two. */
  lemma {:induction false} ChunkPlanShape(length: nat)
    requires 1 <= length < U64Modulus
    ensures var plan := ChunkPlan(length);
      && (forall k :: 0 <= k < |plan| - 1 ==> plan[k] == FftLength)
      && (|plan| > 0 ==> plan[|plan| - 1] == FftLength || (IsPowerOf2(plan[|plan| - 1]) && plan[|plan| - 1] < FftLength))
    decreases length
  {
    var plan := ChunkPlan(length);
    if length > FftLength {
      var rest := ChunkPlan(length - FftLength);
      ChunkPlanShape(length - FftLength);
      assert plan == [FftLength] + rest;
      assert forall k :: 1 <= k < |plan| ==> plan[k] == rest[k - 1];
    } else {
      IsPowerOfTwoMeans(length);
    }
  }

  /** The chunks never take more than the samples, and what they leave is
      nothing or a count below FftLength that IsPowerOfTwo rejects. */
  lemma {:induction false} LeftoverRejected(length: nat)
    requires 1 <= length < U64Modulus
    ensures 0 <= Leftover(length) < FftLength
    ensures Leftover(length) == 0 || !IsPowerOf2(Leftover(length))
    decreases length
  {
    if length > FftLength {
      LeftoverRejected(length - FftLength);
      SumPrepend(FftLength, ChunkPlan(length - FftLength));
    } else {
      LastLeftover(length);
    }
  }

  /** LeftoverRejected for the last block. */
  lemma LastLeftover(length: nat)
    requires 1 <= length <= FftLength
    ensures 0 <= Leftover(length) < FftLength
    ensures Leftover(length) == 0 || !IsPowerOf2(Leftover(length))
  {
    IsPowerOfTwoMeans(length);
    FftLengthIsValid();
    if IsPowerOfTwo(length) {
      assert ChunkPlan(length) == [length];
      assert Sum([length]) == Sum([]) + length;
      assert Leftover(length) == 0;
    } else {
      assert ChunkPlan(length) == [];
      assert Leftover(length) == length;
      assert length != FftLength;
    }
  }

  /** Processing needs at least FftLength bytes, so on the 8-bit path the
      first chunk is always a full one. */
  lemma GatedPlanStartsFull(length: nat)
    requires FftLength <= length < U64Modulus
    ensures |ChunkPlan(length)| >= 1 && ChunkPlan(length)[0] == FftLength
  {
    if length == FftLength {
      FftLengthIsValid();
      IsPowerOfTwoMeans(length);
    }
  }

  /** The complex value a sample becomes: sample / downsample, no imaginary part. */
  function SampleValue(v: int): Complex {
    FromReal(v as real / Downsample)
  }

  /** A chunk of `size` samples read from the samples starting at start. */
  method ToComplexChunk(samples: seq<int>, start: nat, size: nat) returns (chunk: seq<Complex>)
    requires start + size <= |samples|
    ensures |chunk| == size
    ensures forall j :: 0 <= j < size ==> chunk[j] == SampleValue(samples[start + j])
  {
    var window := samples[start..start + size];
    chunk := [];
    var y := 0;
    while y < size
      invariant 0 <= y <= size && |chunk| == y
      invariant forall j :: 0 <= j < y ==> chunk[j] == SampleValue(window[j])
    {
      chunk := chunk + [SampleValue(window[y])];
      y := y + 1;
    }
  }

  function Sizes(chunks: seq<seq<Complex>>): (sizes: seq<int>)
    ensures |sizes| == |chunks|
  {
    seq(|chunks|, k requires 0 <= k < |chunks| => |chunks[k]|)
  }

  /** The chunks read hands to the forward transform, in order: nothing
      below FftLength bytes; otherwise the sizes of ChunkPlan, chunk k
      holding the bytes from k * FftLength on, each turned into a complex
      value by SampleValue. */
  method ReadChunks(data: seq<byte>) returns (chunks: seq<seq<Complex>>)
    requires |data| < U64Modulus
    ensures |data| < FftLength ==> chunks == []
    ensures |data| >= FftLength ==> Sizes(chunks) == ChunkPlan(|data|)
    ensures forall k :: 0 <= k < |chunks| ==> k * FftLength + |chunks[k]| <= |data|
    ensures forall k, j :: 0 <= k < |chunks| && 0 <= j < |chunks[k]| ==>
      chunks[k][j] == SampleValue(data[k * FftLength + j] as int)
  {
    chunks := [];
    if |data| < FftLength {
      return;
    }
    var samples := ByteSamples(data);
    var length := |data|;
    var z := 0;
    while true
      invariant length >= 1 && z + length == |data|
      invariant z == |chunks| * FftLength
      invariant Sizes(chunks) + ChunkPlan(length) == ChunkPlan(|data|)
      invariant forall k :: 0 <= k < |chunks| ==> |chunks[k]| == FftLength
      invariant forall k, j :: 0 <= k < |chunks| && 0 <= j < |chunks[k]| ==>
        chunks[k][j] == SampleValue(data[k * FftLength + j] as int)
      decreases length
    {
      var max;
      if length > FftLength {
        max := FftLength;
      } else if IsPowerOfTwo(length) {
        max := length;
      } else {
        assert ChunkPlan(length) == [];
        break;
      }
      var chunk := ToComplexChunk(samples, z, max);
      ChunkStep(chunks, chunk, length);
      chunks := chunks + [chunk];
      z := z + max;
      length := length - max;
      if length == 0 {
        break;
      }
    }
  }

  lemma ChunkStep(chunks: seq<seq<Complex>>, chunk: seq<Complex>, length: nat)
    requires 1 <= length < U64Modulus
    requires |chunk| == (if length > FftLength then FftLength else length)
    requires length > FftLength || IsPowerOfTwo(length)
    ensures length > FftLength ==>
      Sizes(chunks + [chunk]) + ChunkPlan(length - FftLength) == Sizes(chunks) + ChunkPlan(length)
    ensures length <= FftLength ==> Sizes(chunks + [chunk]) == Sizes(chunks) + ChunkPlan(length)
  {
    assert Sizes(chunks + [chunk]) == Sizes(chunks) + [|chunk|];
  }

  /* ---------------------------------------------------------------------
     The one-sample remainder
     --------------------------------------------------------------------- */

  predicate AllValidLengths(plan: seq<int>) {
    forall k :: 0 <= k < |plan| ==> ValidLength(plan[k])
  }

  lemma AllValidCons(x: int, s: seq<int>)
    ensures AllValidLengths([x] + s) <==> ValidLength(x) && AllValidLengths(s)
  {
    var t := [x] + s;
    assert forall k :: 1 <= k < |t| ==> t[k] == s[k - 1];
    if ValidLength(x) && AllValidLengths(s) {
      forall k | 0 <= k < |t| ensures ValidLength(t[k]) {
        if k > 0 {
          assert t[k] == s[k - 1];
        }
      }
    }
    if AllValidLengths(t) {
      assert ValidLength(t[0]);
      forall k | 0 <= k < |s| ensures ValidLength(s[k]) {
        assert s[k] == t[k + 1];
      }
    }
  }

  /** Every chunk is a length the transform accepts, except when one sample
      is left over: IsPowerOfTwo accepts 1 and the transform rejects it. */
  lemma {:induction false} ChunksFitTransform(length: nat)
    requires 1 <= length < U64Modulus
    ensures AllValidLengths(ChunkPlan(length)) <==> length % FftLength != 1
    decreases length
  {
    if length > FftLength {
      ChunksFitTransform(length - FftLength);
      FftLengthIsValid();
      ModDown(length, FftLength);
      AllValidCons(FftLength, ChunkPlan(length - FftLength));
    } else {
      LastChunkFits(length);
    }
  }

  /** ChunksFitTransform for the last block. */
  lemma LastChunkFits(length: nat)
    requires 1 <= length <= FftLength
    ensures AllValidLengths(ChunkPlan(length)) <==> length != 1
    ensures length % FftLength == (if length == FftLength then 0 else length)
  {
    IsPowerOfTwoMeans(length);
    FftLengthIsValid();
    var plan := ChunkPlan(length);
    if length == FftLength {
      DivModUnique(length, FftLength, 1, 0);
      assert plan == [length];
      assert AllValidLengths(plan);
    } else {
      DivModUnique(length, FftLength, 0, length);
      if length == 1 {
        assert plan == [1];
        assert !ValidLength(plan[0]);
      } else if IsPowerOfTwo(length) {
        assert plan == [length];
        assert ValidLength(length);
        assert AllValidLengths(plan);
      } else {
        assert plan == [];
      }
    }
  }

  /** A buffer of 8193 bytes yields a full chunk and then a one-sample chunk
      the transform rejects. */
  lemma OneSampleRemainder()
    ensures ChunkPlan(FftLength + 1) == [FftLength, 1]
    ensures !ValidLength(ChunkPlan(FftLength + 1)[1])
  {
    IsPowerOfTwoMeans(1);
    assert ChunkPlan(1) == [1];
  }

  /** The chunking with the final block taken only when the transform
      accepts its length. */
  function CorrectedChunkPlan(length: nat): (plan: seq<int>)
    decreases length
  {
    if length > FftLength then [FftLength] + CorrectedChunkPlan(length - FftLength)
    else if ValidLength(length) then [length]
    else []
  }

  /** Every corrected chunk is a valid transform length, and the corrected
      plan differs from the original only on a one-sample remainder. */
  lemma {:induction false} CorrectedChunksFitTransform(length: nat)
    requires 1 <= length < U64Modulus
    ensures AllValidLengths(CorrectedChunkPlan(length))
    ensures length % FftLength != 1 ==> CorrectedChunkPlan(length) == ChunkPlan(length)
    decreases length
  {
    var plan := CorrectedChunkPlan(length);
    FftLengthIsValid();
    if length > FftLength {
      CorrectedChunksFitTransform(length - FftLength);
      ModDown(length, FftLength);
      AllValidCons(FftLength, CorrectedChunkPlan(length - FftLength));
    } else {
      IsPowerOfTwoMeans(length);
    }
  }
}
