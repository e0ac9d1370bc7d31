/** The spectral peak search of Frequency: the spectrogram, the search band,
    findPeaks, the silence guard and Quinn's sub-bin refinement in
    calcFundamentalFreq.

    Magnitude (a square root) is not computed: the caller supplies `mags`,
    one non-negative m per bin with m * m equal to the squared magnitude. */
module Spectrum {
  import opened Results
  import opened ComplexNumbers
  import opened Config
  import opened Bits

  /** A double that is finite or the one infinity the refinement can yield. */
  datatype Extended = Finite(value: real) | MinusInfinity

  function Max(a: int, b: int): int {
    if a >= b then a else b
  }

  function Min(a: int, b: int): int {
    if a <= b then a else b
  }

  /** The squared magnitude of every bin. */
  function Spectrogram(fft: seq<Complex>): (s: seq<real>)
    ensures |s| == |fft|
    ensures forall i :: 0 <= i < |s| ==> s[i] == SquaredMagnitude(fft[i]) && s[i] >= 0.0
    ensures forall i :: 0 <= i < |s| ==> (s[i] == 0.0 <==> fft[i] == Zero)
  {
    seq(|fft|, i requires 0 <= i < |fft| => SquaredMagnitude(fft[i]))
  }

  /* ---------------------------------------------------------------------
     The search band
     --------------------------------------------------------------------- */

  /** The first bin and one past the last bin searched for the fundamental.
      Both divisions are on non-negative int operands, where C#'s truncating
      division agrees with Dafny's. */
  function Band(n: nat, rate: int): (int, int)
    requires rate > 0
  {
    (Max(0, MinFreq * n / rate), Min(n, MaxFreq * n / rate + 1))
  }

  /** The band runs from the bin holding MinFreq to the bin holding MaxFreq,
      clipped to the spectrum; it is never empty when it starts inside it. */
  lemma BandBins(n: nat, rate: int)
    requires rate > 0
    ensures var (lo, hi) := Band(n, rate);
      0 <= lo && hi <= n
      && lo * rate <= MinFreq * n < (lo + 1) * rate
      && (hi < n ==> (hi - 1) * rate <= MaxFreq * n < hi * rate)
      && (lo < n ==> lo < hi)
  {
    var q1 := MinFreq * n / rate;
    var q2 := MaxFreq * n / rate;
    DivBounds(MinFreq * n, rate);
    DivBounds(MaxFreq * n, rate);
    assert q1 * rate <= MinFreq * n < (q1 + 1) * rate;
    assert q2 * rate <= MaxFreq * n < (q2 + 1) * rate;
    if q1 > q2 {
      MulMonotone(q2 + 1, q1, rate);
    }
  }

  /** With the configured rate and chunk length the band is bins 11 to 241:
      231 bins, at least PeaksCount of them, and the right neighbour of any
      bin in it is inside the spectrum. */
  lemma ConfiguredBand()
    ensures Band(FftLength, PreferredSamplesPerSecond) == (11, 242)
    ensures 242 - 11 == 231 >= PeaksCount >= 1
    ensures 242 < FftLength
    ensures 0 < MinFreq < MaxFreq
  {
  }

  /* ---------------------------------------------------------------------
     The first maximum, and findPeaks
     --------------------------------------------------------------------- */

  /** p is the lowest index of [lo, hi) at which s is largest. */
  predicate IsFirstMax(s: seq<real>, lo: int, hi: int, p: int) {
    0 <= lo <= p < hi <= |s|
    && (forall j :: lo <= j < hi ==> s[j] <= s[p])
    && (forall j :: lo <= j < p ==> s[j] < s[p])
  }

  /** The first maximum of [lo, hi), found from the right. */
  function FirstMax(s: seq<real>, lo: int, hi: int): (p: int)
    requires 0 <= lo < hi <= |s|
    ensures lo <= p < hi
    decreases hi - lo
  {
    if lo + 1 == hi then lo
    else
      var m := FirstMax(s, lo + 1, hi);
      if s[lo] >= s[m] then lo else m
  }

  lemma {:induction false} FirstMaxIsFirstMax(s: seq<real>, lo: int, hi: int)
    requires 0 <= lo < hi <= |s|
    ensures IsFirstMax(s, lo, hi, FirstMax(s, lo, hi))
    decreases hi - lo
  {
    if lo + 1 < hi {
      FirstMaxIsFirstMax(s, lo + 1, hi);
    }
  }

  /** The first maximum is unique, so FirstMax is the only index with the property. */
  lemma FirstMaxCharacterised(s: seq<real>, lo: int, hi: int, p: int)
    requires 0 <= lo < hi <= |s|
    ensures IsFirstMax(s, lo, hi, p) <==> p == FirstMax(s, lo, hi)
  {
    FirstMaxIsFirstMax(s, lo, hi);
  }

  /** The minimum-search loop of findPeaks: the first slot holding the
      smallest value (a later slot wins only when strictly smaller). */
  method MinSlot(vals: seq<real>) returns (minVal: real, minIndex: nat)
    requires |vals| >= 1
    ensures minIndex < |vals| && minVal == vals[minIndex]
    ensures forall a :: 0 <= a < |vals| ==> minVal <= vals[a]
    ensures forall a :: 0 <= a < minIndex ==> vals[a] > minVal
  {
    minVal := vals[0];
    minIndex := 0;
    var i := 1;
    while i < |vals|
      invariant 1 <= i <= |vals| && minIndex < i && minVal == vals[minIndex]
      invariant forall a :: 0 <= a < i ==> minVal <= vals[a]
      invariant forall a :: 0 <= a < minIndex ==> vals[a] > minVal
    {
      if minVal > vals[i] {
        minIndex := i;
        minVal := vals[i];
      }
      i := i + 1;
    }
  }

  /** The arguments findPeaks completes on without an exception: at least one
      slot, the initial slots inside the spectrogram, and the scanned bins too. */
  predicate PeaksAccepted(specLength: int, index: int, length: int, count: int) {
    count >= 1 && index >= 0 && index + count <= specLength
    && (length <= count || index + length <= specLength)
  }

  /** What the scan of findPeaks keeps true after the bins below index + i:
      the slots hold distinct scanned bins and their values, minIndex is the
      first smallest slot, every scanned bin left out is no larger than it,
      and a single slot holds the first maximum. */
  predicate ScanState(spec: seq<real>, index: int, i: int, vals: seq<real>, idxs: seq<int>, minVal: real, minIndex: nat) {
    |vals| == |idxs| && minIndex < |vals| && 0 <= index && index + i <= |spec|
    && (forall a :: 0 <= a < |idxs| ==> index <= idxs[a] < index + i && vals[a] == spec[idxs[a]])
    && (forall a, b :: 0 <= a < b < |idxs| ==> idxs[a] != idxs[b])
    && minVal == vals[minIndex]
    && (forall a :: 0 <= a < |vals| ==> minVal <= vals[a])
    && (forall j :: index <= j < index + i && j !in idxs ==> spec[j] <= minVal)
    && (|idxs| == 1 ==> IsFirstMax(spec, index, index + i, idxs[0]))
  }

  /** One iteration of the scan: bin i + index replaces the smallest slot when
      strictly larger, and the smallest slot is then searched again. */
  method ScanBin(spec: seq<real>, index: int, i: int, vals: seq<real>, idxs: seq<int>, minVal: real, minIndex: nat)
    returns (vals': seq<real>, idxs': seq<int>, minVal': real, minIndex': nat)
    requires ScanState(spec, index, i, vals, idxs, minVal, minIndex) && index + i < |spec|
    ensures ScanState(spec, index, i + 1, vals', idxs', minVal', minIndex')
    ensures |idxs'| == |idxs|
  {
    if minVal < spec[i + index] {
      vals', idxs', minVal', minIndex' := ReplaceSmallest(spec, index, i, vals, idxs, minVal, minIndex);
    } else {
      vals', idxs', minVal', minIndex' := vals, idxs, minVal, minIndex;
    }
  }

  /** The replacing branch of the scan. */
  method ReplaceSmallest(spec: seq<real>, index: int, i: int, vals: seq<real>, idxs: seq<int>, minVal: real, minIndex: nat)
    returns (vals': seq<real>, idxs': seq<int>, minVal': real, minIndex': nat)
    requires ScanState(spec, index, i, vals, idxs, minVal, minIndex) && index + i < |spec|
    requires minVal < spec[i + index]
    ensures ScanState(spec, index, i + 1, vals', idxs', minVal', minIndex')
    ensures |idxs'| == |idxs|
  {
    vals' := vals[minIndex := spec[i + index]];
    idxs' := idxs[minIndex := i + index];
    minVal', minIndex' := MinSlot(vals');
    assert forall a :: 0 <= a < |vals'| ==> minVal <= vals'[a];
    assert idxs'[minIndex] == i + index;
    forall j | index <= j < index + i + 1 && j !in idxs'
      ensures spec[j] <= minVal'
    {
      if j != idxs[minIndex] {
        forall a | 0 <= a < |idxs|
          ensures idxs[a] != j
        {
          assert idxs'[a] == (if a == minIndex then i + index else idxs[a]);
        }
      }
    }
  }

  /** The slots findPeaks starts with: the bins index .. index+count-1. */
  method InitialSlots(spec: seq<real>, index: int, count: int) returns (vals: seq<real>, idxs: seq<int>)
    requires 0 <= index && 0 <= count && index + count <= |spec|
    ensures |vals| == count && |idxs| == count
    ensures forall a :: 0 <= a < count ==> idxs[a] == index + a && vals[a] == spec[index + a]
  {
    vals, idxs := [], [];
    var i := 0;
    while i < count
      invariant 0 <= i <= count && |vals| == i && |idxs| == i
      invariant forall a :: 0 <= a < i ==> idxs[a] == index + a && vals[a] == spec[index + a]
    {
      idxs := idxs + [i + index];
      vals := vals + [spec[i + index]];
      i := i + 1;
    }
  }

  /** The initial slots, with their first smallest, start the scan. */
  lemma InitialScanState(spec: seq<real>, index: int, count: int, vals: seq<real>, idxs: seq<int>, minVal: real, minIndex: nat)
    requires 0 <= index && 1 <= count && index + count <= |spec|
    requires |vals| == count && |idxs| == count
    requires forall a :: 0 <= a < count ==> idxs[a] == index + a && vals[a] == spec[index + a]
    requires minIndex < |vals| && minVal == vals[minIndex]
    requires forall a :: 0 <= a < |vals| ==> minVal <= vals[a]
    requires forall a :: 0 <= a < minIndex ==> vals[a] > minVal
    ensures ScanState(spec, index, count, vals, idxs, minVal, minIndex)
  {
    forall j | index <= j < index + count
      ensures j in idxs
    {
      assert idxs[j - index] == j;
    }
  }

  /** findPeaks: `count` slots start on the bins index .. index+count-1; each
      further bin of the range replaces the smallest slot when strictly larger. */
  method FindPeaks(spec: seq<real>, index: int, length: int, count: int) returns (r: Result<seq<int>>)
    ensures r.Fail? <==> !PeaksAccepted(|spec|, index, length, count)
    ensures r.Fail? ==> r.error == (if count < 0 then NegativeArraySize else IndexOutOfRange)
    ensures r.Ok? ==> |r.value| == count
    ensures r.Ok? ==> forall a :: 0 <= a < count ==> index <= r.value[a] < index + Max(count, length)
    ensures r.Ok? ==> forall a, b :: 0 <= a < b < count ==> r.value[a] != r.value[b]
    ensures r.Ok? ==> forall j, a :: index <= j < index + Max(count, length) && j !in r.value && 0 <= a < count
                        ==> spec[j] <= spec[r.value[a]]
    ensures r.Ok? && count == 1 ==> IsFirstMax(spec, index, index + Max(1, length), r.value[0])
  {
    if count < 0 {
      return Fail(NegativeArraySize);
    }
    if count == 0 || index < 0 || index + count > |spec| {
      return Fail(IndexOutOfRange);
    }
    if length > count && index + length > |spec| {
      // the scan below would read past the end of the spectrogram
      return Fail(IndexOutOfRange);
    }
    var vals, idxs := InitialSlots(spec, index, count);
    var minVal, minIndex := MinSlot(vals);
    InitialScanState(spec, index, count, vals, idxs, minVal, minIndex);
    var i := count;
    while i < length
      invariant count <= i && (i <= length || i == count)
      invariant |idxs| == count && ScanState(spec, index, i, vals, idxs, minVal, minIndex)
    {
      vals, idxs, minVal, minIndex := ScanBin(spec, index, i, vals, idxs, minVal, minIndex);
      i := i + 1;
    }
    assert i == Max(count, length);
    ScanResult(spec, index, i, vals, idxs, minVal, minIndex);
    r := Ok(idxs);
  }

  /** What the scan state says once the scan is over: every bin left out is no
      larger than any slot. */
  lemma ScanResult(spec: seq<real>, index: int, n: int, vals: seq<real>, idxs: seq<int>, minVal: real, minIndex: nat)
    requires ScanState(spec, index, n, vals, idxs, minVal, minIndex)
    ensures forall a :: 0 <= a < |idxs| ==> index <= idxs[a] < index + n
    ensures forall a, b :: 0 <= a < b < |idxs| ==> idxs[a] != idxs[b]
    ensures forall j, a :: index <= j < index + n && j !in idxs && 0 <= a < |idxs| ==> spec[j] <= spec[idxs[a]]
    ensures |idxs| == 1 ==> IsFirstMax(spec, index, index + n, idxs[0])
  {
  }

  /* ---------------------------------------------------------------------
     Quinn's refinement and calcFundamentalFreq
     --------------------------------------------------------------------- */

  /** The sub-bin offset from the magnitudes of the peak and its neighbours:
      with ratio1 = left / peak and ratio2 = right / peak,
      d1 = ratio1 / (1 - ratio1) and d2 = -ratio2 / (1 - ratio2), taking d1
      only when both are positive. ratio2 = 1 divides -1 by zero, which in
      double arithmetic is minus infinity; it is not positive, so it is the
      offset. */
  function QuinnOffset(left: real, peak: real, right: real): Extended
    requires 0.0 <= left < peak
  {
    var ratio1 := left / peak;
    var ratio2 := right / peak;
    assert 0.0 <= ratio1 < 1.0;
    var d1 := ratio1 / (1.0 - ratio1);
    if ratio2 == 1.0 then MinusInfinity
    else
      var d2 := -ratio2 / (1.0 - ratio2);
      Finite(if d1 > 0.0 && d2 > 0.0 then d1 else d2)
  }

  /** The refined bin (offset + p) converted to hertz: divided by n, times the rate. */
  function BinToHertz(offset: Extended, p: int, n: int, rate: int): Extended
    requires n > 0
  {
    match offset
    case Finite(d) => Finite((d + p as real) / n as real * rate as real)
    case MinusInfinity => MinusInfinity
  }

  /** The bin calcFundamentalFreq refines: the first maximum of the band. */
  function PeakBin(fft: seq<Complex>, rate: int): (p: int)
    requires rate > 0 && Band(|fft|, rate).0 < |fft|
    ensures Band(|fft|, rate).0 <= p < Band(|fft|, rate).1
  {
    BandBins(|fft|, rate);
    var (lo, hi) := Band(|fft|, rate);
    FirstMax(Spectrogram(fft), lo, hi)
  }

  /** Past the silence guard the peak lies right of the band's first bin,
      is strictly above its left neighbour, and so is non-zero. */
  lemma PeakRises(fft: seq<Complex>, mags: seq<real>, rate: int)
    requires |mags| == |fft| && forall i :: 0 <= i < |fft| ==> IsMagnitude(mags[i], fft[i])
    requires rate > 0 && Band(|fft|, rate).0 < |fft|
    requires PeakBin(fft, rate) != Band(|fft|, rate).0
    ensures var p := PeakBin(fft, rate);
      0 < p && 0.0 <= mags[p - 1] < mags[p]
  {
    BandBins(|fft|, rate);
    var (lo, hi) := Band(|fft|, rate);
    var p := PeakBin(fft, rate);
    var s := Spectrogram(fft);
    FirstMaxIsFirstMax(s, lo, hi);
    assert s[p - 1] < s[p];
    assert SquaredMagnitude(fft[p - 1]) < SquaredMagnitude(fft[p]);
    MagnitudeMonotone(mags[p - 1], fft[p - 1], mags[p], fft[p]);
  }

  /** calcFundamentalFreq. The silence guard returns 0 when the peak is the
      band's first bin; otherwise the peak is a strict rise over its left
      neighbour and the result is Quinn's estimate converted to hertz. The
      only failures are reads outside the spectrum: a band starting past its
      end, or a peak in the last bin. */
  method CalcFundamentalFreq(fft: seq<Complex>, mags: seq<real>, rate: int) returns (r: Result<Extended>)
    requires |mags| == |fft| && forall i :: 0 <= i < |fft| ==> IsMagnitude(mags[i], fft[i])
    requires rate > 0
    requires MaxFreq * |fft| < 0x8000_0000
    ensures var lo := Band(|fft|, rate).0;
      r.Fail? <==> lo >= |fft| || (PeakBin(fft, rate) != lo && PeakBin(fft, rate) + 1 >= |fft|)
    ensures r.Fail? ==> r.error == IndexOutOfRange
    ensures var lo := Band(|fft|, rate).0;
      lo < |fft| && PeakBin(fft, rate) == lo ==> r == Ok(Finite(0.0))
    ensures var lo := Band(|fft|, rate).0;
      r.Ok? && lo < |fft| && PeakBin(fft, rate) != lo ==>
        var p := PeakBin(fft, rate);
        0 < p < |fft| - 1 && 0.0 <= mags[p - 1] < mags[p]
        && r.value == BinToHertz(QuinnOffset(mags[p - 1], mags[p], mags[p + 1]), p, |fft|, rate)
  {
    var n := |fft|;
    var spectrogram := Spectrogram(fft);
    BandBins(n, rate);
    var (lo, hi) := Band(n, rate);
    var peaks := FindPeaks(spectrogram, lo, hi - lo, PeaksCount);
    if peaks.Fail? {
      return Fail(peaks.error);
    }
    FirstMaxCharacterised(spectrogram, lo, hi, peaks.value[0]);
    if lo in peaks.value {
      return Ok(Finite(0.0));
    }
    var p := peaks.value[0];
    if p + 1 >= n {
      return Fail(IndexOutOfRange);
    }
    PeakRises(fft, mags, rate);
    var offset := QuinnOffset(mags[p - 1], mags[p], mags[p + 1]);
    r := Ok(BinToHertz(offset, p, n, rate));
  }

  /* ---------------------------------------------------------------------
     Consequences
     --------------------------------------------------------------------- */

  /** A spectrum with the same energy in every bin of the band (silence in
      particular) peaks at the band's first bin, so the guard returns 0. */
  lemma FlatBandPeaksLow(fft: seq<Complex>, rate: int)
    requires rate > 0 && Band(|fft|, rate).0 < |fft|
    requires forall i, j :: 0 <= i < |fft| && 0 <= j < |fft| ==> SquaredMagnitude(fft[i]) == SquaredMagnitude(fft[j])
    ensures PeakBin(fft, rate) == Band(|fft|, rate).0
  {
    BandBins(|fft|, rate);
    var (lo, hi) := Band(|fft|, rate);
    FirstMaxCharacterised(Spectrogram(fft), lo, hi, lo);
  }

  lemma SilencePeaksLow(fft: seq<Complex>, rate: int)
    requires rate > 0 && Band(|fft|, rate).0 < |fft|
    requires forall i :: 0 <= i < |fft| ==> fft[i] == Zero
    ensures PeakBin(fft, rate) == Band(|fft|, rate).0
  {
    FlatBandPeaksLow(fft, rate);
  }

  /** With the configured chunk length and rate the band starts inside the
      spectrum and no peak sits in the last bin, so calcFundamentalFreq never
      fails there. */
  lemma ConfiguredPeakHasRightNeighbour(fft: seq<Complex>)
    requires |fft| == FftLength
    ensures Band(|fft|, PreferredSamplesPerSecond).0 < |fft|
    ensures PeakBin(fft, PreferredSamplesPerSecond) + 1 < |fft|
  {
    ConfiguredBand();
  }

  /** The direction of Quinn's offset follows the right neighbour alone: a
      right neighbour below the peak moves the estimate down (or nowhere when
      it is zero), one equal to the peak gives minus infinity, and one above
      the peak moves it up. */
  lemma QuinnOffsetSign(left: real, peak: real, right: real)
    requires 0.0 <= left < peak && 0.0 <= right
    ensures right < peak ==> QuinnOffset(left, peak, right).Finite? && QuinnOffset(left, peak, right).value <= 0.0
    ensures right == 0.0 ==> QuinnOffset(left, peak, right) == Finite(0.0)
    ensures right == peak ==> QuinnOffset(left, peak, right) == MinusInfinity
    ensures right > peak ==> QuinnOffset(left, peak, right).Finite? && QuinnOffset(left, peak, right).value > 0.0
  {
    var ratio2 := right / peak;
    if right < peak {
      assert 0.0 <= ratio2 < 1.0;
      NegatedRatio(ratio2);
    } else if right > peak {
      QuotientSigns(right, peak);
      NegatedRatio(ratio2);
      var ratio1 := left / peak;
      assert 0.0 <= ratio1 < 1.0;
      QuotientSigns(ratio1, 1.0 - ratio1);
    }
  }

  /** -r / (1 - r) is at most 0 for r in [0, 1), and positive for r > 1. */
  lemma NegatedRatio(r: real)
    requires r >= 0.0 && r != 1.0
    ensures r < 1.0 ==> -r / (1.0 - r) <= 0.0
    ensures r > 1.0 ==> -r / (1.0 - r) > 0.0
  {
    if r < 1.0 {
      QuotientSigns(r, 1.0 - r);
    } else {
      QuotientSigns(-r, 1.0 - r);
    }
  }

  /** The signs of a real quotient, which the solver does not find through
      compound operands. */
  lemma QuotientSigns(x: real, y: real)
    ensures x >= 0.0 && y > 0.0 ==> x / y >= 0.0
    ensures x < 0.0 && y < 0.0 ==> x / y > 0.0
    ensures 0.0 < y < x ==> x / y > 1.0
  {
  }
}
