# SilverTune pitch detection, modelled in Dafny

SilverTune is a small guitar tuner. It records audio, cuts it into
8192-sample chunks, runs a radix-2 FFT on each chunk, and picks the
strongest bin between 60 Hz and 1300 Hz. It refines that bin with
Quinn's interpolation and names the nearest note in a 60-entry
equal-tempered pitch table. This project models that path and proves
properties of it:

- `results.dfy` (`Results`): the exceptions the code can throw, as a
  `Result` error.
- `config.dfy` (`Config`): the numeric constants of `Constants.cs`.
- `complex.dfy` (`ComplexNumbers`): the `ComplexNumber` struct and its
  operators over exact reals.
- `bits.dfy` (`Bits`): powers of two and bit reversal of an index.
- `fourier.dfy` (`Fourier`): `FourierTransform`.
  - The bit-reversal table and its cache.
  - `ReorderData`.
  - The rotation tables and their cache.
  - The butterfly passes and the forward normalisation.
  - `FFT` and `FFT2`, each against a reference definition.
- `spectrum.dfy` (`Spectrum`): `calcFundamentalFreq`, which covers:
  - the spectrogram and the search band;
  - `findPeaks`;
  - the silence guard;
  - Quinn's estimator.
- `pitches.dfy` (`Pitches`): `loadPitches` as a note/accidental
  automaton, the `Pitch` record, and the nearest-pitch lookup `getPitch`.
- `capture.dfy` (`Capture`): the pure part of `MainPage.read` on the
  8-bit path:
  - bytes to samples;
  - the chunking loop and its `IsPowerOfTwo` test (`ulong` wrap-around
    included);
  - samples to complex values.

Arrays are modelled as sequences. A method that works in place returns
the new sequence. The two process-wide caches of `FourierTransform`
(`reversedBits`, `complexRotation`) are maps threaded through the
methods, with an invariant that every cached table is the right one.

Calls the model cannot make become parameters:

- The twiddle factors are a parameter `step: (bits, direction) -> Complex`.
  In the code each is cos/sin of pi/2^(bits-1), followed by incremental
  rotation in doubles.
  - A rotation table is modelled as the successive powers of the step.
  - Only the table's length and its first entry `One` depend on nothing
    else.
- `Magnitude` (a square root) is a parameter `mags` with
  `mags[i] >= 0` and `mags[i]^2 == SquaredMagnitude(fft[i])`.
- The pitch ratios 2^(i/12) are a parameter `ratio: int -> real`. The
  model assumes only `ratio(0) == 1`.
- `Tools.IsPowerOf2`, `Tools.Log2` and `Tools.Pow2` are not part of this
  model. `Bits.IsPowerOf2`, `Bits.Log2` and `Bits.Pow2` define them by
  their meaning.

Behaviours of the code worth noting (the model follows the code):

- There is no guard on `1 - ratio2` in the Quinn step: a right neighbour
  as large as the peak divides by zero, which gives minus infinity in
  doubles. `Spectrum.QuinnOffset` returns `MinusInfinity` in that case.
  `getPitch` takes that value as it is: every distance is then +Infinity,
  all keys tie, and the lookup returns the table's first entry
  (`Pitches.MinusInfinityPicksFirst`).
- The sign of the offset follows the right neighbour alone, whatever the
  left neighbour is (`Spectrum.QuinnOffsetSign`).
- `GetComplexRotation` does not check its bit count. A count outside
  [1, 14] indexes outside the cache array (`IndexOutOfRange`), while
  `GetReversedBits` throws `ArgumentOutOfRangeException`
  (`BitsOutOfRange`).

Source paths below are relative to the repository root. The prefix
`SeniorProject_JoshWeese/SeniorProject_JoshWeese/SilverTune/SilverTune/`
is written out in full in the table.

## Model

| member | source | states |
|---|---|---|
| ComplexNumbers.Copy | SeniorProject_JoshWeese/SeniorProject_JoshWeese/SilverTune/SilverTune/ComplexNumber.cs:61-65 | the copy constructor yields a value equal to the original |
| ComplexNumbers.RealScales | SeniorProject_JoshWeese/SeniorProject_JoshWeese/SilverTune/SilverTune/ComplexNumber.cs:100-103 | a real converted to a complex number (imaginary part 0) multiplies both parts of any complex number by that real |
| ComplexNumbers.SquaredMagnitude | SeniorProject_JoshWeese/SeniorProject_JoshWeese/SilverTune/SilverTune/ComplexNumber.cs:50-53 | Re^2 + Im^2 is never negative, and is zero exactly when the value is Zero |
| ComplexNumbers.Power2 | SeniorProject_JoshWeese/SeniorProject_JoshWeese/SilverTune/SilverTune/ComplexNumber.cs:111-114 | Power2 is the real part of c * c; it equals the squared magnitude for a real c and its negation for an imaginary c |
| ComplexNumbers.MulLaws | SeniorProject_JoshWeese/SeniorProject_JoshWeese/SilverTune/SilverTune/ComplexNumber.cs:79-83 | the product is commutative, One is its identity, Zero absorbs, and I * I == -One |
| ComplexNumbers.AddSubLaws | SeniorProject_JoshWeese/SeniorProject_JoshWeese/SilverTune/SilverTune/ComplexNumber.cs:85-98 | (a + b) - b == a, a + (-a) == Zero, a - b == a + (-b), Zero is the identity of +, and + commutes |
| ComplexNumbers.MulDistributes | SeniorProject_JoshWeese/SeniorProject_JoshWeese/SilverTune/SilverTune/ComplexNumber.cs:79-93 | the product distributes over + and - |
| ComplexNumbers.MulAssociative | SeniorProject_JoshWeese/SeniorProject_JoshWeese/SilverTune/SilverTune/ComplexNumber.cs:79-83 | the product is associative |
| ComplexNumbers.MagnitudeZero | SeniorProject_JoshWeese/SeniorProject_JoshWeese/SilverTune/SilverTune/ComplexNumber.cs:31-34 | a magnitude (non-negative m with m^2 equal to the squared magnitude) is zero exactly for Zero |
| ComplexNumbers.MagnitudeMonotone | SeniorProject_JoshWeese/SeniorProject_JoshWeese/SilverTune/SilverTune/ComplexNumber.cs:31-34 | magnitudes compare (<=, <, ==) exactly as squared magnitudes do |
| Capture.FftLengthIsValid | SeniorProject_JoshWeese/SeniorProject_JoshWeese/SilverTune/SilverTune/Constants.cs:38 | the chunk length 8192 is 2^13, a length the transform accepts, with log2 equal to 13 |
| Fourier.LengthLimitsMatchBitLimits | SeniorProject_JoshWeese/SeniorProject_JoshWeese/SilverTune/SilverTune/Frequency.cs:676-679 | the length limits 2 and 16384 are 2^minBits and 2^maxBits |
| Bits.RevBound | SeniorProject_JoshWeese/SeniorProject_JoshWeese/SilverTune/SilverTune/Frequency.cs:698-706 | reversing b bits gives a value below 2^b |
| Bits.RevMirrorsBits | SeniorProject_JoshWeese/SeniorProject_JoshWeese/SilverTune/SilverTune/Frequency.cs:698-706 | bit t of the reversed value is bit b-1-t of the input, for every t < b |
| Bits.RevInvolution | SeniorProject_JoshWeese/SeniorProject_JoshWeese/SilverTune/SilverTune/Frequency.cs:754-764 | reversing twice gives back every index below 2^b |
| Bits.RevInjective | SeniorProject_JoshWeese/SeniorProject_JoshWeese/SilverTune/SilverTune/Frequency.cs:754-764 | distinct indices below 2^b have distinct reversals |
| Fourier.ValidLengthBits | SeniorProject_JoshWeese/SeniorProject_JoshWeese/SilverTune/SilverTune/Frequency.cs:749-752 | a length ReorderData accepts has a log2 in [minBits, maxBits], so GetReversedBits accepts it |
| Fourier.ReverseBits | SeniorProject_JoshWeese/SeniorProject_JoshWeese/SilverTune/SilverTune/Frequency.cs:698-706 | the shift-and-or loop yields i with its low `bits` bits reversed, below 2^bits |
| Fourier.GetReversedBits | SeniorProject_JoshWeese/SeniorProject_JoshWeese/SilverTune/SilverTune/Frequency.cs:684-711 | fails exactly for a bit count outside [1, 14], leaving the cache alone; otherwise returns the 2^b-entry table of reversals, stores it, and returns a cached table unchanged; the cache only grows |
| Fourier.RotationPowers | SeniorProject_JoshWeese/SeniorProject_JoshWeese/SilverTune/SilverTune/Frequency.cs:730-736 | the incremental rotation u := u * w from u = 1 stores w^i at entry i |
| Fourier.GetComplexRotation | SeniorProject_JoshWeese/SeniorProject_JoshWeese/SilverTune/SilverTune/Frequency.cs:714-741 | fails exactly for a bit count outside [1, 14]; otherwise the table has 2^(b-1) entries, entry 0 is One, it is cached per (bits, direction), and a cached table is returned unchanged; the cache only grows |
| Fourier.SwapReversedPairs | SeniorProject_JoshWeese/SeniorProject_JoshWeese/SilverTune/SilverTune/Frequency.cs:754-764 | swapping only when Rev(i) > i leaves new[k] == old[Rev(k)] at every k, and the multiset of elements is unchanged |
| Fourier.ReorderData | SeniorProject_JoshWeese/SeniorProject_JoshWeese/SilverTune/SilverTune/Frequency.cs:744-765 | rejects exactly the lengths that are not powers of two in [2, 16384], before touching data; otherwise the result is the bit-reversal permutation of the input, and the reversal table of log2(n) is cached next to the tables already there |
| Fourier.ButterflyPairsPartition | SeniorProject_JoshWeese/SeniorProject_JoshWeese/SilverTune/SilverTune/Frequency.cs:581-599 | in a pass with half-width tm, the indices (i, block, side) visited are in bounds, every index of [0, n) is visited, and no two iterations visit the same index |
| Fourier.ButterflyPass | SeniorProject_JoshWeese/SeniorProject_JoshWeese/SilverTune/SilverTune/Frequency.cs:578-600 | the in-place butterfly loops leave at every even slot even + w * odd and at every odd slot even - w * odd, with w the rotation of the pair |
| Fourier.OnePass | SeniorProject_JoshWeese/SeniorProject_JoshWeese/SilverTune/SilverTune/Frequency.cs:574-601 | pass k takes the rotation table of k and extends the first k-1 passes by one; the table of (k, direction) is then cached, and every table cached before stays unchanged |
| Fourier.RunPasses | SeniorProject_JoshWeese/SeniorProject_JoshWeese/SilverTune/SilverTune/Frequency.cs:572-601 | the pass loop computes passes 1..count of the reference, and tn, the block width, is 2^count; the tables of passes 1..count are cached, and earlier entries stay unchanged |
| Fourier.DivideByLength | SeniorProject_JoshWeese/SeniorProject_JoshWeese/SilverTune/SilverTune/Frequency.cs:603-610 | the forward normalisation divides every element, both parts, by n |
| Fourier.FFT | SeniorProject_JoshWeese/SeniorProject_JoshWeese/SilverTune/SilverTune/Frequency.cs:563-612 | fails exactly on an invalid length; otherwise it is the reference: reorder, all log2(n) passes, then division by n when forward only; both caches only grow, are untouched on failure, and on success hold the bit table for log2(n) and the rotation for every pass length it used |
| Fourier.FFTOfPair | SeniorProject_JoshWeese/SeniorProject_JoshWeese/SilverTune/SilverTune/Frequency.cs:563-612 | on two points the transform is (a + b, a - b), halved when forward, whatever the rotations |
| Fourier.ImpulseIsFlat | SeniorProject_JoshWeese/SeniorProject_JoshWeese/SilverTune/SilverTune/Frequency.cs:563-612 | an impulse transforms to all One backward and all 1/n forward |
| Fourier.ZeroIsFixed | SeniorProject_JoshWeese/SeniorProject_JoshWeese/SilverTune/SilverTune/Frequency.cs:563-612 | silence transforms to silence in both directions |
| Fourier.ForwardIsScaledBackward | SeniorProject_JoshWeese/SeniorProject_JoshWeese/SilverTune/SilverTune/Frequency.cs:603-610 | the forward transform is the backward one run with the forward rotations, divided by n |
| Fourier.TransformRows | SeniorProject_JoshWeese/SeniorProject_JoshWeese/SilverTune/SilverTune/Frequency.cs:643-656 | every row is replaced by its transform; both caches only grow and, for a non-empty matrix, hold the tables for the row length |
| Fourier.TransformColumns | SeniorProject_JoshWeese/SeniorProject_JoshWeese/SilverTune/SilverTune/Frequency.cs:658-671 | every column is replaced by its transform; both caches only grow and, once a column has been done, hold the tables for the column length |
| Fourier.TransformColumn | SeniorProject_JoshWeese/SeniorProject_JoshWeese/SilverTune/SilverTune/Frequency.cs:660-670 | one column step: the column copied out of the matrix, transformed, and written back into that column alone |
| Fourier.ColumnsComplete | SeniorProject_JoshWeese/SeniorProject_JoshWeese/SilverTune/SilverTune/Frequency.cs:658-671 | when the loop has passed every column, the matrix is the reference column transform |
| Fourier.FFT2 | SeniorProject_JoshWeese/SeniorProject_JoshWeese/SilverTune/SilverTune/Frequency.cs:627-672 | fails exactly when either dimension is not a valid length; otherwise rows then columns are transformed; both caches only grow, are untouched on failure, and on success hold the tables for both the row and the column length |
| Spectrum.Spectrogram | SeniorProject_JoshWeese/SeniorProject_JoshWeese/SilverTune/SilverTune/Frequency.cs:48-54 | entry i is the squared magnitude of bin i: non-negative, and zero exactly for a zero bin |
| Spectrum.BandBins | SeniorProject_JoshWeese/SeniorProject_JoshWeese/SilverTune/SilverTune/Frequency.cs:56-57 | the band starts at the bin holding minFreq and ends after the bin holding maxFreq, clipped to the spectrum, and is non-empty when it starts inside it |
| Spectrum.ConfiguredBand | SeniorProject_JoshWeese/SeniorProject_JoshWeese/SilverTune/SilverTune/Constants.cs:33-38 | at 44100 Hz and 8192 bins the band is [11, 242), 231 bins, at least peaksCount; minFreq < maxFreq |
| Spectrum.MinSlot | SeniorProject_JoshWeese/SeniorProject_JoshWeese/SilverTune/SilverTune/Frequency.cs:116-121 | finds the first slot holding the smallest value |
| Spectrum.ScanBin | SeniorProject_JoshWeese/SeniorProject_JoshWeese/SilverTune/SilverTune/Frequency.cs:123-137 | one scanned bin keeps the scan invariant: distinct slots, every left-out bin no larger than the smallest slot, and a single slot holding the first maximum |
| Spectrum.FindPeaks | SeniorProject_JoshWeese/SeniorProject_JoshWeese/SilverTune/SilverTune/Frequency.cs:105-140 | fails exactly when the initial slots or the scan leave the spectrogram; otherwise it returns count distinct in-range indices, every left-out bin no larger than any chosen one, and for one slot the first maximum |
| Spectrum.FirstMaxCharacterised | SeniorProject_JoshWeese/SeniorProject_JoshWeese/SilverTune/SilverTune/Frequency.cs:123-137 | the first maximum of a range is unique and equals the reference FirstMax |
| Spectrum.PeakRises | SeniorProject_JoshWeese/SeniorProject_JoshWeese/SilverTune/SilverTune/Frequency.cs:61-76 | past the silence guard the peak has a left neighbour with a strictly smaller magnitude, so ratio1 is in [0, 1) |
| Spectrum.CalcFundamentalFreq | SeniorProject_JoshWeese/SeniorProject_JoshWeese/SilverTune/SilverTune/Frequency.cs:45-91 | returns 0 when the first maximum is the band's first bin; otherwise Quinn's estimate (d1 only when d1 and d2 are both positive) turned into hertz; fails exactly on reads outside the spectrum |
| Spectrum.FlatBandPeaksLow | SeniorProject_JoshWeese/SeniorProject_JoshWeese/SilverTune/SilverTune/Frequency.cs:61-66 | a spectrum with equal energy everywhere peaks at the band's first bin, so the guard returns 0 |
| Spectrum.SilencePeaksLow | SeniorProject_JoshWeese/SeniorProject_JoshWeese/SilverTune/SilverTune/Frequency.cs:61-66 | an all-zero spectrum peaks at the band's first bin |
| Spectrum.ConfiguredPeakHasRightNeighbour | SeniorProject_JoshWeese/SeniorProject_JoshWeese/SilverTune/SilverTune/Frequency.cs:75-76 | with the configured length and rate the band starts inside the spectrum and the peak always has a right neighbour |
| Spectrum.QuinnOffsetSign | SeniorProject_JoshWeese/SeniorProject_JoshWeese/SilverTune/SilverTune/Frequency.cs:77-87 | a right neighbour below the peak gives an offset <= 0 (0 when it is zero), one equal to the peak gives minus infinity, one above gives a positive offset |
| Pitches.NoSharpBOrE | SeniorProject_JoshWeese/SeniorProject_JoshWeese/SilverTune/SilverTune/Frequency.cs:221-275 | in the chromatic scale B and E never carry a sharp |
| Pitches.StatePeriodic | SeniorProject_JoshWeese/SeniorProject_JoshWeese/SilverTune/SilverTune/Frequency.cs:212-283 | after its first iteration the note/accidental automaton repeats every 12 iterations |
| Pitches.EmitsChromatic | SeniorProject_JoshWeese/SeniorProject_JoshWeese/SilverTune/SilverTune/Frequency.cs:221-283 | iteration k assigns note and accidental k mod 12 of C, C#, D, ..., B |
| Pitches.TableEntry | SeniorProject_JoshWeese/SeniorProject_JoshWeese/SilverTune/SilverTune/Frequency.cs:219-283 | entry k of the reference table is what iteration k assigns, at frequency concert * ratio(k - 33) |
| Pitches.LoadPitches | SeniorProject_JoshWeese/SeniorProject_JoshWeese/SilverTune/SilverTune/Frequency.cs:208-287 | produces the 60-entry chromatic table, and entry 33 is A natural at the concert frequency |
| Pitches.ConfiguredConcertA | SeniorProject_JoshWeese/SeniorProject_JoshWeese/SilverTune/SilverTune/Constants.cs:45 | with concertAfreq the table's A natural is 440 Hz |
| Pitches.NearestIndexIsFirstNearest | SeniorProject_JoshWeese/SeniorProject_JoshWeese/SilverTune/SilverTune/Frequency.cs:190-196 | the search returns the first entry at least as close as every other and strictly closer than every earlier one |
| Pitches.FirstNearestUnique | SeniorProject_JoshWeese/SeniorProject_JoshWeese/SilverTune/SilverTune/Frequency.cs:190-196 | only one index is the first nearest |
| Pitches.GetPitch | SeniorProject_JoshWeese/SeniorProject_JoshWeese/SilverTune/SilverTune/Frequency.cs:190-196 | for a finite frequency or the -Infinity calcFundamentalFreq can return, fails (First() on nothing) exactly for an empty list; otherwise returns the first nearest entry, as a stable ordering does |
| Pitches.MinusInfinityPicksFirst | SeniorProject_JoshWeese/SeniorProject_JoshWeese/SilverTune/SilverTune/Frequency.cs:190-196 | a -Infinity frequency puts every entry at distance +Infinity, so all keys tie and the first entry of a non-empty list is returned |
| Pitches.MinusInfinityPicksLowestC | SeniorProject_JoshWeese/SeniorProject_JoshWeese/SilverTune/SilverTune/MainPage.xaml.cs:711-713 | a -Infinity frequency handed on to getPitch yields the table's first entry, C natural |
| Pitches.ConcertLookup | SeniorProject_JoshWeese/SeniorProject_JoshWeese/SilverTune/SilverTune/Frequency.cs:190-196 | looking up the concert frequency in the table finds A natural |
| Capture.LowestBitCleared | SeniorProject_JoshWeese/SeniorProject_JoshWeese/SilverTune/SilverTune/MainPage.xaml.cs:633-636 | for x >= 1, x & (x - 1) is zero exactly when x is a power of two |
| Capture.IsPowerOfTwoMeans | SeniorProject_JoshWeese/SeniorProject_JoshWeese/SilverTune/SilverTune/MainPage.xaml.cs:633-636 | the test is true exactly for 0 (where x - 1 wraps) and for the powers of two |
| Capture.PreferredFormatReadsBytes | SeniorProject_JoshWeese/SeniorProject_JoshWeese/SilverTune/SilverTune/MainPage.xaml.cs:247-279 | read converts pairs of bytes exactly for a 16-bit format, so the format chosen with preferredBitsPerSample (8) takes the byte path |
| Capture.ByteSamples | SeniorProject_JoshWeese/SeniorProject_JoshWeese/SilverTune/SilverTune/MainPage.xaml.cs:270-277 | one sample per byte, equal to it, in [0, 256) and so in Int16 range |
| Capture.ChunkPlanShape | SeniorProject_JoshWeese/SeniorProject_JoshWeese/SilverTune/SilverTune/MainPage.xaml.cs:291-306 | every chunk but the last has fftLength samples; the last has fftLength or a smaller power of two |
| Capture.LeftoverRejected | SeniorProject_JoshWeese/SeniorProject_JoshWeese/SilverTune/SilverTune/MainPage.xaml.cs:297-338 | the chunks never take more than the samples, and what is left is nothing or fewer than fftLength samples that are not a power of two |
| Capture.GatedPlanStartsFull | SeniorProject_JoshWeese/SeniorProject_JoshWeese/SilverTune/SilverTune/MainPage.xaml.cs:205 | past the length gate the first chunk is a full one |
| Capture.ToComplexChunk | SeniorProject_JoshWeese/SeniorProject_JoshWeese/SilverTune/SilverTune/MainPage.xaml.cs:308-315 | sample start + j becomes element j, with real part sample / downsample and imaginary part 0 |
| Capture.ReadChunks | SeniorProject_JoshWeese/SeniorProject_JoshWeese/SilverTune/SilverTune/MainPage.xaml.cs:286-339 | nothing below fftLength bytes; otherwise the chunk sizes follow the plan, chunk k reads the consecutive bytes from k * fftLength on, inside the buffer |
| Capture.ChunksFitTransform | SeniorProject_JoshWeese/SeniorProject_JoshWeese/SilverTune/SilverTune/MainPage.xaml.cs:291-306 | every chunk is a length the transform accepts exactly when the byte count is not 1 more than a multiple of fftLength |
| Capture.OneSampleRemainder | SeniorProject_JoshWeese/SeniorProject_JoshWeese/SilverTune/SilverTune/MainPage.xaml.cs:298-305 | 8193 bytes give a full chunk and then a one-sample chunk the transform rejects |
| Capture.CorrectedChunksFitTransform | SeniorProject_JoshWeese/SeniorProject_JoshWeese/SilverTune/SilverTune/MainPage.xaml.cs:291-306 | with the final block taken only at a valid transform length, every chunk is accepted, and the plan is unchanged except on a one-sample remainder |

## Left out

- `DFT` and `DFT2`, the reference transforms: cosine and sine in doubles.
- The twiddle values of `GetComplexRotation` (cos/sin, drift of the incremental rotation in doubles): the per-pass step is a parameter.
- `Phase`, `PoweredE`, the square root in `Magnitude`, and `ToString`: transcendental functions and formatting. Magnitudes are a parameter.
- IEEE double rounding in general: arithmetic is over exact reals, except for the one division by zero the Quinn step can perform, whose -Infinity is carried on into getPitch.
- `calculateCents`: a base-2 logarithm of a double ratio, cast to int by truncation toward zero.
- `FundamentalFrequency`'s rounding and property-change events: UI binding.
- `MemoryStreamAudioSink`, device capture, stream reading, the dispatcher and the buttons of `MainPage`: I/O and concurrency. `read` is modelled from the byte buffer on.
- The 16-bit conversion path of `read`, `save`, and `manualFrequency`'s sine generation: outside the 8-bit path, or file and sine I/O.
- The order in which `read` asks for the pitch of the previous frequency before computing the new one (the reverse of `manualFrequency`): this is event-level sequencing, and each step is modelled on its own.
- `SilverTuneGraph` and `PageSwitcher`: charting and navigation.
- `Tools.IsPowerOf2`, `Tools.Log2` and `Tools.Pow2`: that file is not part of this model; `Bits` defines them by their meaning.
- Spectrum.CalcFundamentalFreq: requires a positive sample rate and `maxFreq * n < 2^31`. A zero rate would throw. A negative rate, which a typed-in sample rate can give, makes the truncating divisions yield a band [0, at most 1); findPeaks then returns bin 0 and the silence guard returns 0, a case the model leaves out because its band is defined for positive rates only. A larger n overflows the int product in the band computation, which the model does not wrap.
- Pitches.ConcertLookup: requires the ratios below offset 0 to be below 1, which 2^(i/12) satisfies and the uninterpreted ratio does not guarantee.
- Capture.ReadChunks: requires a buffer shorter than 2^64 bytes, the range of the `ulong` cast.
- Pitches.LoadPitches: the frequencies are `concert * ratio(i)` for an uninterpreted `ratio` with `ratio(0) == 1`, not 2^(i/12) itself.

## Findings

| source | as written | input that shows it | evidently intended | confidence | as-written member | corrected member |
|---|---|---|---|---|---|---|
| SeniorProject_JoshWeese/SeniorProject_JoshWeese/SilverTune/SilverTune/MainPage.xaml.cs:298-318 | the final chunk is taken whenever `IsPowerOfTwo` accepts its length, and 1 is a power of two, so a one-sample chunk reaches `FFT`, whose `ReorderData` rejects lengths below 2 with an `ArgumentException` | a buffer of 8193 bytes: one chunk of 8192, then a chunk of 1 | take only chunks the transform accepts, leaving a one-sample remainder unprocessed like any other rejected remainder | medium, not executed | Capture.OneSampleRemainder | Capture.CorrectedChunksFitTransform |
