/** The radix-2 Fourier transform of FourierTransform (FFT, FFT2,
    GetReversedBits, GetComplexRotation, ReorderData), over exact reals.

    The twiddle factors are cos/sin values the model does not compute: the
    transform takes `step`, where step(bits, direction) stands for the pair
    (cos a, sin a) with a = direction * pi / 2^(bits-1) that GetComplexRotation
    computes with Math.Cos and Math.Sin. Everything built from it (the
    rotation tables, the butterflies) is then modelled exactly. */
module Fourier {
  import opened Results
  import opened Bits
  import opened ComplexNumbers

  datatype Direction = Forward | Backward

  /** The private limits of FourierTransform. */
  const MinLength: int := 2
  const MaxLength: int := 16384
  const MinBits: int := 1
  const MaxBits: int := 14

  /** The transform's length limits are 2^MinBits and 2^MaxBits. */
  lemma LengthLimitsMatchBitLimits()
    ensures MinLength == Pow2(MinBits) && MaxLength == Pow2(MaxBits)
  {
    Pow2Values();
  }

  /** A length ReorderData and FFT2 accept: a power of two in [2, 16384]. */
  predicate ValidLength(n: int) {
    MinLength <= n <= MaxLength && IsPowerOf2(n)
  }

  lemma ValidLengthBits(n: int)
    requires ValidLength(n)
    ensures MinBits <= Log2(n) <= MaxBits
  {
    var k := Log2(n);
    if k > MaxBits {
      Pow2Add(k - MaxBits, MaxBits);
      MulMonotone(2, Pow2(k - MaxBits), Pow2(MaxBits));
      Pow2Values();
    }
  }

  /* ---------------------------------------------------------------------
     Bit-reversal tables and their cache (GetReversedBits)
     --------------------------------------------------------------------- */

  /** Entry i of the table for `bits` is i with its low `bits` bits reversed. */
  predicate IsReversedBitsTable(t: seq<int>, bits: nat) {
    |t| == Pow2(bits) && forall i :: 0 <= i < |t| ==> t[i] == Rev(i, bits)
  }

  /** The one table of `bits`-bit reversals. */
  function ReversedBitsTable(bits: nat): (t: seq<int>)
    ensures IsReversedBitsTable(t, bits)
  {
    seq(Pow2(bits), i requires 0 <= i < Pow2(bits) => Rev(i, bits))
  }

  /** A reversal table is determined by its number of bits. */
  lemma ReversedBitsTableUnique(t: seq<int>, bits: nat)
    requires IsReversedBitsTable(t, bits)
    ensures t == ReversedBitsTable(bits)
  {
    var u := ReversedBitsTable(bits);
    assert forall i :: 0 <= i < |t| ==> t[i] == u[i];
  }

  /** The process-wide cache `reversedBits`, keyed by the number of bits. */
  type BitsCache = map<int, seq<int>>

  /** Every cached table is the table of its key, and keys are in range. */
  predicate ValidBitsCache(cache: BitsCache) {
    forall b :: b in cache ==> MinBits <= b <= MaxBits && IsReversedBitsTable(cache[b], b)
  }

  /** The inner loop of GetReversedBits: shifts the low `bits` bits of i, one
      at a time, into the bottom of an accumulator. */
  method ReverseBits(i: nat, bits: nat) returns (newBits: nat)
    ensures newBits == Rev(i, bits)
    ensures newBits < Pow2(bits)
  {
    var oldBits: nat := i;
    newBits := 0;
    var j := 0;
    while j < bits
      invariant 0 <= j <= bits
      invariant newBits * Pow2(bits - j) + Rev(oldBits, bits - j) == Rev(i, bits)
    {
      ReverseStep(newBits, oldBits, bits - j);
      // (newBits << 1) | (oldBits & 1): the shifted value is even, so the or adds the low bit
      newBits := 2 * newBits + oldBits % 2;
      // oldBits >> 1 on a non-negative value
      oldBits := oldBits / 2;
      j := j + 1;
    }
    RevBound(i, bits);
  }

  /** GetReversedBits: rejects a bit count outside [1, 14]; otherwise returns
      the cached table, computing and caching it on first use. */
  method GetReversedBits(cache: BitsCache, numberOfBits: int) returns (r: Result<seq<int>>, cache': BitsCache)
    requires ValidBitsCache(cache)
    ensures ValidBitsCache(cache')
    ensures r.Fail? <==> numberOfBits < MinBits || numberOfBits > MaxBits
    ensures r.Fail? ==> r.error == BitsOutOfRange && cache' == cache
    ensures r.Ok? ==> IsReversedBitsTable(r.value, numberOfBits)
    ensures r.Ok? ==> cache' == cache[numberOfBits := r.value]
    ensures numberOfBits in cache ==> r == Ok(cache[numberOfBits]) && cache' == cache
    ensures Extends(cache, cache')
  {
    if numberOfBits < MinBits || numberOfBits > MaxBits {
      return Fail(BitsOutOfRange), cache;
    }
    if numberOfBits in cache {
      return Ok(cache[numberOfBits]), cache;
    }
    var n := Pow2(numberOfBits);
    var rBits: seq<int> := [];
    var i := 0;
    while i < n
      invariant 0 <= i <= n && |rBits| == i
      invariant forall k :: 0 <= k < i ==> rBits[k] == Rev(k, numberOfBits)
    {
      var newBits := ReverseBits(i, numberOfBits);
      rBits := rBits + [newBits];
      i := i + 1;
    }
    r, cache' := Ok(rBits), cache[numberOfBits := rBits];
  }

  /* ---------------------------------------------------------------------
     Rotation tables and their cache (GetComplexRotation)
     --------------------------------------------------------------------- */

  /** w^k, by repeated multiplication from One. */
  function Power(w: Complex, k: nat): Complex {
    if k == 0 then One else Mul(Power(w, k - 1), w)
  }

  /** The rotation table of pass `bits`: 2^(bits-1) successive powers of the step. */
  predicate IsRotationTable(t: seq<Complex>, bits: int, w: Complex) {
    bits >= 1 && |t| == Pow2(bits - 1) && forall i :: 0 <= i < |t| ==> t[i] == Power(w, i)
  }

  function RotationTable(bits: int, w: Complex): (t: seq<Complex>)
    requires bits >= 1
    ensures IsRotationTable(t, bits, w)
  {
    seq(Pow2(bits - 1), i requires 0 <= i => Power(w, i))
  }

  /** The process-wide cache `complexRotation`, keyed by bits and direction. */
  type RotationCache = map<(int, Direction), seq<Complex>>

  predicate ValidRotationCache(cache: RotationCache, step: (int, Direction) -> Complex) {
    forall key :: key in cache ==>
      MinBits <= key.0 <= MaxBits && IsRotationTable(cache[key], key.0, step(key.0, key.1))
  }

  /** A cache only grows: every table cached before is still there, unchanged. */
  predicate Extends<K, V(==)>(cache: map<K, V>, cache': map<K, V>) {
    forall key :: key in cache ==> key in cache' && cache'[key] == cache[key]
  }

  /** The caches hold every table a transform of 2^bits points in this
      direction uses: the reversal table and the rotation tables of passes
      1..bits. */
  predicate HoldsTables(bitsCache: BitsCache, rotationCache: RotationCache, bits: nat, direction: Direction) {
    bits in bitsCache && forall k :: 1 <= k <= bits ==> (k, direction) in rotationCache
  }

  /** Tables once held stay held as the caches grow. */
  lemma HoldsTablesKept(bitsCache: BitsCache, rotationCache: RotationCache, bitsCache': BitsCache,
                        rotationCache': RotationCache, bits: nat, direction: Direction)
    requires HoldsTables(bitsCache, rotationCache, bits, direction)
    requires Extends(bitsCache, bitsCache') && Extends(rotationCache, rotationCache')
    ensures HoldsTables(bitsCache', rotationCache', bits, direction)
  {
  }

  lemma ExtendsTransitive<K, V>(a: map<K, V>, b: map<K, V>, c: map<K, V>)
    requires Extends(a, b) && Extends(b, c)
    ensures Extends(a, c)
  {
  }

  /** The loop of GetComplexRotation: n successive powers of w, each the
      previous one rotated by w. */
  method RotationPowers(n: nat, w: Complex) returns (rotation: seq<Complex>)
    ensures |rotation| == n
    ensures forall i :: 0 <= i < n ==> rotation[i] == Power(w, i)
  {
    var uR, uI := 1.0, 0.0;
    rotation := [];
    var i := 0;
    while i < n
      invariant 0 <= i <= n && |rotation| == i
      invariant Complex(uR, uI) == Power(w, i)
      invariant forall k :: 0 <= k < i ==> rotation[k] == Power(w, k)
    {
      rotation := rotation + [Complex(uR, uI)];
      var t := uR * w.im + uI * w.re;
      uR := uR * w.re - uI * w.im;
      uI := t;
      i := i + 1;
    }
  }

  /** GetComplexRotation: the table of pass `numberOfBits`, built by the
      incremental rotation u := u * w starting from u = 1, and cached. A bit
      count outside [1, 14] indexes outside the cache array. */
  method GetComplexRotation(cache: RotationCache, numberOfBits: int, direction: Direction,
                            step: (int, Direction) -> Complex)
    returns (r: Result<seq<Complex>>, cache': RotationCache)
    requires ValidRotationCache(cache, step)
    ensures ValidRotationCache(cache', step)
    ensures r.Fail? <==> numberOfBits < MinBits || numberOfBits > MaxBits
    ensures r.Fail? ==> r.error == IndexOutOfRange && cache' == cache
    ensures r.Ok? ==> IsRotationTable(r.value, numberOfBits, step(numberOfBits, direction))
    ensures r.Ok? ==> |r.value| == Pow2(numberOfBits - 1) && r.value[0] == One
    ensures r.Ok? ==> cache' == cache[(numberOfBits, direction) := r.value]
    ensures (numberOfBits, direction) in cache ==> r == Ok(cache[(numberOfBits, direction)]) && cache' == cache
    ensures Extends(cache, cache')
  {
    if numberOfBits < MinBits || numberOfBits > MaxBits {
      return Fail(IndexOutOfRange), cache;
    }
    if (numberOfBits, direction) in cache {
      return Ok(cache[(numberOfBits, direction)]), cache;
    }
    var rotation := RotationPowers(Pow2(numberOfBits - 1), step(numberOfBits, direction));
    r := Ok(rotation);
    cache' := cache[(numberOfBits, direction) := rotation];
  }

  /* ---------------------------------------------------------------------
     Bit-reversal permutation (ReorderData)
     --------------------------------------------------------------------- */

  /** `r` is `data` with the element at index Rev(i) moved to index i. */
  predicate IsBitReversal<T(==)>(data: seq<T>, r: seq<T>)
    requires ValidLength(|data|)
  {
    |r| == |data| && forall i :: 0 <= i < |r| ==> r[i] == data[Mirror(i, Log2(|data|))]
  }

  /** Where the swap loop of ReorderData has put things after handling
      positions below i: a position whose pair has been handled holds its
      mirror's element, any other position still holds its own. */
  predicate SwappedBelow<T(==)>(s: seq<T>, data: seq<T>, m: nat, i: nat)
    requires |data| == Pow2(m)
  {
    |s| == |data| &&
    forall k :: 0 <= k < |s| ==>
      s[k] == (if k < i || Mirror(k, m) < i then data[Mirror(k, m)] else data[k])
  }

  lemma SwapStep<T>(s: seq<T>, data: seq<T>, m: nat, i: nat)
    requires |data| == Pow2(m) && i < |data| && SwappedBelow(s, data, m, i)
    ensures var sw := Mirror(i, m);
      SwappedBelow(if sw > i then s[i := s[sw]][sw := s[i]] else s, data, m, i + 1)
  {
    var sw := Mirror(i, m);
    RevInvolution(i, m);
    var s' := if sw > i then s[i := s[sw]][sw := s[i]] else s;
    forall k | 0 <= k < |s|
      ensures s'[k] == (if k < i + 1 || Mirror(k, m) < i + 1 then data[Mirror(k, m)] else data[k])
    {
      if k != i && k != sw && Mirror(k, m) == i {
        RevInvolution(k, m);
      }
    }
  }

  /** The swap loop of ReorderData: position i exchanges its element with
      position Rev(i) when Rev(i) > i, so every pair is exchanged once. */
  method SwapReversedPairs<T>(data: seq<T>, m: nat, table: seq<int>) returns (s: seq<T>)
    requires |data| == Pow2(m) && IsReversedBitsTable(table, m)
    ensures |s| == |data|
    ensures forall k :: 0 <= k < |s| ==> s[k] == data[Mirror(k, m)]
    ensures multiset(s) == multiset(data)
  {
    var len := |data|;
    s := data;
    var i := 0;
    while i < len
      invariant 0 <= i <= len
      invariant multiset(s) == multiset(data)
      invariant SwappedBelow(s, data, m, i)
    {
      var sw := table[i];
      assert sw == Mirror(i, m);
      SwapStep(s, data, m, i);
      if sw > i {
        var t := s[i];
        s := s[i := s[sw]][sw := t];
      }
      i := i + 1;
    }
  }

  /** ReorderData: validates the length before touching the data, then swaps
      each pair (i, Rev(i)) once, when Rev(i) > i. */
  method ReorderData<T(==)>(data: seq<T>, cache: BitsCache) returns (r: Result<seq<T>>, cache': BitsCache)
    requires ValidBitsCache(cache)
    ensures ValidBitsCache(cache')
    ensures r.Fail? <==> !ValidLength(|data|)
    ensures r.Fail? ==> r.error == InvalidLength && cache' == cache
    ensures r.Ok? ==> ValidLength(|data|) && cache' == cache[Log2(|data|) := ReversedBitsTable(Log2(|data|))]
    ensures Extends(cache, cache')
    ensures r.Ok? ==> IsBitReversal(data, r.value)
    ensures r.Ok? ==> multiset(r.value) == multiset(data)
  {
    var len := |data|;
    if len < MinLength || len > MaxLength || !IsPowerOf2(len) {
      return Fail(InvalidLength), cache;
    }
    var m := Log2(len);
    ValidLengthBits(len);
    var table;
    table, cache' := GetReversedBits(cache, m);
    ReversedBitsTableUnique(table.value, m);
    var s := SwapReversedPairs(data, m, table.value);
    r := Ok(s);
  }

  /* ---------------------------------------------------------------------
     The butterfly schedule of one pass of FFT
     --------------------------------------------------------------------- */

  /** In the pass with half-width tm (pairs tm apart, blocks of 2*tm), the
      index touched as the even (odd) element of pair i of block `row`. */
  function Slot(i: int, row: int, odd: bool, tm: nat): int {
    i + row * (2 * tm) + (if odd then tm else 0)
  }

  /** Which pair, block and side an index belongs to. */
  function Column(idx: nat, tm: nat): nat
    requires tm >= 1
  {
    DivBounds(idx, 2 * tm);
    var r := idx % (2 * tm);
    if r < tm then r else r - tm
  }

  function Row(idx: nat, tm: nat): nat
    requires tm >= 1
  {
    DivBounds(idx, 2 * tm);
    idx / (2 * tm)
  }

  predicate IsOdd(idx: nat, tm: nat)
    requires tm >= 1
  {
    DivBounds(idx, 2 * tm);
    idx % (2 * tm) >= tm
  }

  lemma SlotDecodes(i: int, row: int, odd: bool, tm: nat)
    requires tm >= 1 && 0 <= i < tm && row >= 0
    ensures Slot(i, row, odd, tm) >= 0
    ensures Column(Slot(i, row, odd, tm), tm) == i
    ensures Row(Slot(i, row, odd, tm), tm) == row
    ensures IsOdd(Slot(i, row, odd, tm), tm) == odd
  {
    var x := Slot(i, row, odd, tm);
    DivModUnique(x, 2 * tm, row, i + (if odd then tm else 0));
  }

  lemma IndexDecodes(idx: nat, tm: nat)
    requires tm >= 1
    ensures Column(idx, tm) < tm
    ensures idx == Slot(Column(idx, tm), Row(idx, tm), IsOdd(idx, tm), tm)
  {
  }

  lemma RowBound(idx: nat, tm: nat, n: nat)
    requires tm >= 1 && n % (2 * tm) == 0 && idx < n
    ensures Row(idx, tm) < n / (2 * tm)
  {
    var c := n / (2 * tm);
    assert n == c * (2 * tm);
    if Row(idx, tm) >= c {
      MulMonotone(c, Row(idx, tm), 2 * tm);
    }
  }

  lemma SlotBound(i: int, row: int, odd: bool, tm: nat, n: nat)
    requires tm >= 1 && n % (2 * tm) == 0 && 0 <= i < tm && 0 <= row < n / (2 * tm)
    ensures 0 <= Slot(i, row, odd, tm) < n
  {
    var c := n / (2 * tm);
    assert n == c * (2 * tm);
    MulMonotone(row + 1, c, 2 * tm);
  }

  /** The pairs (even, even + tm) visited by one pass partition [0, n): every
      loop iteration (pair i, block row, side) touches an index in bounds, every
      index is touched by some iteration, and by exactly one. */
  lemma ButterflyPairsPartition(n: nat, tm: nat)
    requires tm >= 1 && n % (2 * tm) == 0
    ensures forall i, row, odd :: 0 <= i < tm && 0 <= row < n / (2 * tm) ==> 0 <= Slot(i, row, odd, tm) < n
    ensures forall idx :: 0 <= idx < n ==>
      Column(idx, tm) < tm && Row(idx, tm) < n / (2 * tm)
      && idx == Slot(Column(idx, tm), Row(idx, tm), IsOdd(idx, tm), tm)
    ensures forall i, row, odd, i', row', odd' ::
      0 <= i < tm && 0 <= row && 0 <= i' < tm && 0 <= row' && Slot(i, row, odd, tm) == Slot(i', row', odd', tm)
      ==> i == i' && row == row' && odd == odd'
  {
    forall i, row, odd | 0 <= i < tm && 0 <= row < n / (2 * tm)
      ensures 0 <= Slot(i, row, odd, tm) < n
    {
      SlotBound(i, row, odd, tm, n);
    }
    forall idx | 0 <= idx < n
      ensures Column(idx, tm) < tm && Row(idx, tm) < n / (2 * tm)
      ensures idx == Slot(Column(idx, tm), Row(idx, tm), IsOdd(idx, tm), tm)
    {
      IndexDecodes(idx, tm);
      RowBound(idx, tm, n);
    }
    forall i, row, odd, i', row', odd' |
      0 <= i < tm && 0 <= row && 0 <= i' < tm && 0 <= row' && Slot(i, row, odd, tm) == Slot(i', row', odd', tm)
      ensures i == i' && row == row' && odd == odd'
    {
      SlotDecodes(i, row, odd, tm);
      SlotDecodes(i', row', odd', tm);
    }
  }

  /** The partner of every index lies inside the data. */
  lemma PairInBounds(n: nat, tm: nat, idx: nat)
    requires tm >= 1 && n % (2 * tm) == 0 && idx < n
    ensures !IsOdd(idx, tm) ==> idx + tm < n
    ensures IsOdd(idx, tm) ==> idx >= tm
  {
    RowBound(idx, tm, n);
    IndexDecodes(idx, tm);
    var i, row := Column(idx, tm), Row(idx, tm);
    SlotBound(i, row, true, tm, n);
    SlotDecodes(i, row, true, tm);
    SlotDecodes(i, row, false, tm);
  }

  /** The value a pass leaves at index idx: an even index receives
      even + w * odd, an odd index receives even - w * odd, where w is the
      rotation of its pair. */
  function PassValue(d: seq<Complex>, rotation: seq<Complex>, tm: nat, idx: nat): Complex
    requires tm >= 1 && |d| % (2 * tm) == 0 && |rotation| >= tm && idx < |d|
  {
    RowBound(idx, tm, |d|);
    IndexDecodes(idx, tm);
    SlotBound(Column(idx, tm), Row(idx, tm), true, tm, |d|);
    SlotBound(Column(idx, tm), Row(idx, tm), false, tm, |d|);
    var i := Column(idx, tm);
    if !IsOdd(idx, tm) then Add(d[idx], Mul(d[idx + tm], rotation[i]))
    else Sub(d[idx - tm], Mul(d[idx], rotation[i]))
  }

  function Butterflies(d: seq<Complex>, rotation: seq<Complex>, tm: nat): (r: seq<Complex>)
    requires tm >= 1 && |d| % (2 * tm) == 0 && |rotation| >= tm
    ensures |r| == |d|
  {
    seq(|d|, idx requires 0 <= idx < |d| => PassValue(d, rotation, tm, idx))
  }

  /** The progress of a pass: pairs of column below i, and the first `row`
      blocks of column i, have been combined; everything else is untouched. */
  predicate Combined(idx: nat, tm: nat, i: nat, row: nat)
    requires tm >= 1
  {
    Column(idx, tm) < i || (Column(idx, tm) == i && Row(idx, tm) < row)
  }

  predicate PassState(s: seq<Complex>, data: seq<Complex>, rotation: seq<Complex>, tm: nat, i: nat, row: nat)
    requires tm >= 1 && |data| % (2 * tm) == 0 && |rotation| >= tm
  {
    |s| == |data| &&
    forall idx :: 0 <= idx < |data| ==>
      s[idx] == (if Combined(idx, tm, i, row) then PassValue(data, rotation, tm, idx) else data[idx])
  }

  /** One butterfly: the pair (even, even + tm) becomes
      (even + t * odd, even - t * odd). */
  function Butterfly(s: seq<Complex>, even: nat, tm: nat, t: Complex): (r: seq<Complex>)
    requires even + tm < |s|
    ensures |r| == |s|
  {
    var odd := even + tm;
    s[even := Add(s[even], Mul(s[odd], t))][odd := Sub(s[even], Mul(s[odd], t))]
  }

  lemma ButterflyStep(s: seq<Complex>, data: seq<Complex>, rotation: seq<Complex>, tm: nat, i: nat, row: nat)
    requires tm >= 1 && |data| % (2 * tm) == 0 && |rotation| >= tm && i < tm
    requires PassState(s, data, rotation, tm, i, row)
    requires Slot(i, row, false, tm) < |data|
    ensures Slot(i, row, true, tm) < |data|
    ensures PassState(Butterfly(s, Slot(i, row, false, tm), tm, rotation[i]), data, rotation, tm, i, row + 1)
  {
    var n := |data|;
    var even := Slot(i, row, false, tm);
    SlotDecodes(i, row, false, tm);
    SlotDecodes(i, row, true, tm);
    RowBound(even, tm, n);
    SlotBound(i, row, true, tm, n);
    var s' := Butterfly(s, even, tm, rotation[i]);
    forall idx | 0 <= idx < n
      ensures s'[idx] == (if Combined(idx, tm, i, row + 1) then PassValue(data, rotation, tm, idx) else data[idx])
    {
      IndexDecodes(idx, tm);
      if Column(idx, tm) == i && Row(idx, tm) == row {
        assert idx == even || idx == even + tm;
      }
    }
  }

  lemma ColumnFinished(s: seq<Complex>, data: seq<Complex>, rotation: seq<Complex>, tm: nat, i: nat, row: nat)
    requires tm >= 1 && |data| % (2 * tm) == 0 && |rotation| >= tm
    requires PassState(s, data, rotation, tm, i, row)
    requires Slot(i, row, false, tm) >= |data|
    ensures PassState(s, data, rotation, tm, i + 1, 0)
  {
    forall idx | 0 <= idx < |data| && Column(idx, tm) == i
      ensures Row(idx, tm) < row
    {
      IndexDecodes(idx, tm);
      if Row(idx, tm) >= row {
        MulMonotone(row, Row(idx, tm), 2 * tm);
      }
    }
  }

  /** The component arithmetic FFT writes out for one butterfly is complex
      addition and subtraction of the rotated odd element. */
  lemma ButterflyArithmetic(ce: Complex, co: Complex, t: Complex)
    ensures Add(ce, Mul(co, t)) == Complex(ce.re + (co.re * t.re - co.im * t.im), ce.im + (co.re * t.im + co.im * t.re))
    ensures Sub(ce, Mul(co, t)) == Complex(ce.re - (co.re * t.re - co.im * t.im), ce.im - (co.re * t.im + co.im * t.re))
  {
    var tr, ti := co.re * t.re - co.im * t.im, co.re * t.im + co.im * t.re;
    assert Mul(co, t) == Complex(tr, ti);
  }

  /** One butterfly pass of FFT (the loops over i and even). */
  method ButterflyPass(data: seq<Complex>, rotation: seq<Complex>, tm: nat) returns (s: seq<Complex>)
    requires tm >= 1 && |data| % (2 * tm) == 0 && |rotation| == tm
    ensures s == Butterflies(data, rotation, tm)
  {
    var n := |data|;
    var tn := 2 * tm;
    s := data;
    var i := 0;
    while i < tm
      invariant 0 <= i <= tm
      invariant PassState(s, data, rotation, tm, i, 0)
    {
      var t := rotation[i];
      var even := i;
      ghost var row := 0;
      while even < n
        invariant row >= 0 && even == Slot(i, row, false, tm)
        invariant PassState(s, data, rotation, tm, i, row)
        decreases n - even
      {
        ButterflyStep(s, data, rotation, tm, i, row);
        var odd := even + tm;
        var ce := s[even];
        var co := s[odd];
        var tr := co.re * t.re - co.im * t.im;
        var ti := co.re * t.im + co.im * t.re;
        ButterflyArithmetic(ce, co, t);
        ghost var before := s;
        s := s[even := Complex(ce.re + tr, ce.im + ti)][odd := Complex(ce.re - tr, ce.im - ti)];
        assert s == Butterfly(before, even, tm, t);
        even := even + tn;
        row := row + 1;
      }
      ColumnFinished(s, data, rotation, tm, i, row);
      i := i + 1;
    }
    forall idx | 0 <= idx < n
      ensures Combined(idx, tm, tm, 0)
    {
      IndexDecodes(idx, tm);
    }
  }

  /* ---------------------------------------------------------------------
     The whole transform (FFT) and its reference definition
     --------------------------------------------------------------------- */

  /** `data` in bit-reversed order, as ReorderData leaves it. */
  function BitReversed(data: seq<Complex>): (r: seq<Complex>)
    requires ValidLength(|data|)
    ensures IsBitReversal(data, r)
  {
    seq(|data|, i requires 0 <= i < |data| => data[Mirror(i, Log2(|data|))])
  }

  /** Passes 1..count of FFT applied to d: pass k combines elements 2^(k-1)
      apart with the rotation table of k in the given direction. */
  function Passes(d: seq<Complex>, count: nat, direction: Direction, step: (int, Direction) -> Complex): (r: seq<Complex>)
    requires IsPowerOf2(|d|) && count <= Log2(|d|)
    ensures |r| == |d|
    decreases count
  {
    if count == 0 then d
    else
      Pow2Monotone(count, Log2(|d|));
      Butterflies(Passes(d, count - 1, direction, step), RotationTable(count, step(count, direction)), Pow2(count - 1))
  }

  /** The forward transform divides every element by the length. */
  function Normalized(d: seq<Complex>, direction: Direction): (r: seq<Complex>)
    requires |d| > 0
    ensures |r| == |d|
  {
    if direction == Forward then seq(|d|, i requires 0 <= i < |d| => Scale(d[i], |d| as real)) else d
  }

  /** The reference result of FFT: a length error, or the reordered data
      after all log2(n) passes, normalised when forward. */
  function FFTSpec(data: seq<Complex>, direction: Direction, step: (int, Direction) -> Complex): (r: Result<seq<Complex>>)
    ensures r.Ok? ==> |r.value| == |data|
  {
    if !ValidLength(|data|) then Fail(InvalidLength)
    else Ok(Normalized(Passes(BitReversed(data), Log2(|data|), direction, step), direction))
  }

  /** The final loop of FFT in the forward direction. */
  method DivideByLength(d: seq<Complex>) returns (s: seq<Complex>)
    requires |d| > 0
    ensures s == Normalized(d, Forward)
  {
    var n := |d|;
    s := d;
    var i := 0;
    while i < n
      invariant 0 <= i <= n && |s| == n
      invariant forall k :: 0 <= k < n ==> s[k] == (if k < i then Scale(d[k], n as real) else d[k])
    {
      s := s[i := Complex(s[i].re / n as real, s[i].im / n as real)];
      i := i + 1;
    }
  }

  /** The pass loop of FFT, passes 1..count in order; tn is the block width
      the loop holds after them, 2^count (pass k combines elements tm =
      2^(k-1) apart, within blocks of tn = 2^k). */
  method RunPasses(d0: seq<Complex>, count: nat, direction: Direction, step: (int, Direction) -> Complex,
                   rotationCache: RotationCache)
    returns (d': seq<Complex>, tn: nat, rotationCache': RotationCache)
    requires ValidLength(|d0|) && count <= Log2(|d0|) && ValidRotationCache(rotationCache, step)
    ensures d' == Passes(d0, count, direction, step) && tn == Pow2(count)
    ensures ValidRotationCache(rotationCache', step) && Extends(rotationCache, rotationCache')
    ensures forall k :: 1 <= k <= count ==> (k, direction) in rotationCache'
    decreases count
  {
    if count == 0 {
      return d0, 1, rotationCache;
    }
    var d, tm, cache := RunPasses(d0, count - 1, direction, step, rotationCache);
    d', rotationCache' := OnePass(d0, count, d, tm, direction, step, cache);
    ExtendsTransitive(rotationCache, cache, rotationCache');
    tn := 2 * tm;
  }

  /** Pass k of FFT: fetch the rotation table of k and combine elements tm
      apart. */
  method OnePass(d0: seq<Complex>, k: nat, d: seq<Complex>, tm: nat, direction: Direction,
                 step: (int, Direction) -> Complex, rotationCache: RotationCache)
    returns (d': seq<Complex>, rotationCache': RotationCache)
    requires ValidLength(|d0|) && 1 <= k <= Log2(|d0|) && tm == Pow2(k - 1)
    requires d == Passes(d0, k - 1, direction, step) && ValidRotationCache(rotationCache, step)
    ensures d' == Passes(d0, k, direction, step)
    ensures ValidRotationCache(rotationCache', step) && Extends(rotationCache, rotationCache')
    ensures (k, direction) in rotationCache'
  {
    ValidLengthBits(|d0|);
    var table;
    table, rotationCache' := GetComplexRotation(rotationCache, k, direction, step);
    var rotation := table.value;
    assert rotation == RotationTable(k, step(k, direction));
    Pow2Monotone(k, Log2(|d0|));
    d' := ButterflyPass(d, rotation, tm);
  }

  /** FFT: reorder (which rejects a bad length), then the passes, then the
      forward normalisation. Both process-wide caches are threaded through. */
  method FFT(data: seq<Complex>, direction: Direction, step: (int, Direction) -> Complex,
             bitsCache: BitsCache, rotationCache: RotationCache)
    returns (r: Result<seq<Complex>>, bitsCache': BitsCache, rotationCache': RotationCache)
    requires ValidBitsCache(bitsCache) && ValidRotationCache(rotationCache, step)
    ensures r == FFTSpec(data, direction, step)
    ensures ValidBitsCache(bitsCache') && ValidRotationCache(rotationCache', step)
    ensures Extends(bitsCache, bitsCache') && Extends(rotationCache, rotationCache')
    ensures r.Fail? <==> !ValidLength(|data|)
    ensures r.Fail? ==> r.error == InvalidLength && bitsCache' == bitsCache && rotationCache' == rotationCache
    ensures r.Ok? ==> ValidLength(|data|) && HoldsTables(bitsCache', rotationCache', Log2(|data|), direction)
  {
    var reordered;
    reordered, bitsCache' := ReorderData(data, bitsCache);
    rotationCache' := rotationCache;
    if reordered.Fail? {
      return Fail(reordered.error), bitsCache', rotationCache';
    }
    var d := reordered.value;
    assert d == BitReversed(data);
    var tn;
    d, tn, rotationCache' := RunPasses(d, Log2(|d|), direction, step, rotationCache);
    if direction == Forward {
      d := DivideByLength(d);
    }
    r := Ok(d);
  }

  /* ---------------------------------------------------------------------
     Properties of the transform
     --------------------------------------------------------------------- */

  /** A two-point transform is the two-point DFT, whatever the rotations:
      backward gives (a + b, a - b), forward the same halved. */
  lemma FFTOfPair(a: Complex, b: Complex, step: (int, Direction) -> Complex)
    ensures FFTSpec([a, b], Backward, step) == Ok([Add(a, b), Sub(a, b)])
    ensures FFTSpec([a, b], Forward, step) == Ok([Scale(Add(a, b), 2.0), Scale(Sub(a, b), 2.0)])
  {
    Pow2IsPowerOf2(1);
    assert Log2(2) == 1;
    var rev := BitReversed([a, b]);
    assert rev == [a, b] by {
      assert Rev(0, 1) == 0 && Rev(1, 1) == 1;
    }
    forall direction: Direction
      ensures Passes(rev, 1, direction, step) == [Add(a, b), Sub(a, b)]
    {
      var w := step(1, direction);
      MulLaws(b, One);
      assert RotationTable(1, w)[0] == One;
      DivModUnique(0, 2, 0, 0);
      DivModUnique(1, 2, 0, 1);
    }
    var out := Passes(rev, 1, Forward, step);
    assert Normalized(out, Forward) == [Scale(out[0], 2.0), Scale(out[1], 2.0)];
  }

  /** n elements: One at the first `count` positions, Zero after them. */
  function LeadingOnes(n: nat, count: nat): (r: seq<Complex>)
    ensures |r| == n
  {
    seq(n, i => if i < count then One else Zero)
  }

  /** The impulse of length n: One followed by zeros. */
  function Impulse(n: nat): (r: seq<Complex>)
    ensures |r| == n
  {
    LeadingOnes(n, 1)
  }

  function Zeros(n: nat): (r: seq<Complex>)
    ensures |r| == n
  {
    seq(n, i => Zero)
  }

  /** A pass with half-width tm over a block of tm leading ones doubles it. */
  lemma SpreadStep(d: seq<Complex>, rotation: seq<Complex>, tm: nat, idx: nat)
    requires tm >= 1 && |d| % (2 * tm) == 0 && |rotation| >= tm && idx < |d|
    requires d == LeadingOnes(|d|, tm)
    ensures PassValue(d, rotation, tm, idx) == if idx < 2 * tm then One else Zero
  {
    PairInBounds(|d|, tm, idx);
    MulZero(rotation[Column(idx, tm)]);
    if idx < 2 * tm {
      DivModUnique(idx, 2 * tm, 0, idx);
    }
  }

  /** A pass leaves silence silent. */
  lemma SilentStep(n: nat, rotation: seq<Complex>, tm: nat, idx: nat)
    requires tm >= 1 && n % (2 * tm) == 0 && |rotation| >= tm && idx < n
    ensures PassValue(Zeros(n), rotation, tm, idx) == Zero
  {
    PairInBounds(n, tm, idx);
    var z := Zeros(n);
    var w := rotation[Column(idx, tm)];
    MulZero(w);
    if IsOdd(idx, tm) {
      assert PassValue(z, rotation, tm, idx) == Sub(z[idx - tm], Mul(z[idx], w));
    } else {
      assert PassValue(z, rotation, tm, idx) == Add(z[idx], Mul(z[idx + tm], w));
    }
  }

  /** After k passes the impulse has spread to the first 2^k positions. */
  lemma {:induction false} ImpulseSpreads(n: nat, k: nat, direction: Direction, step: (int, Direction) -> Complex)
    requires ValidLength(n) && k <= Log2(n)
    ensures Passes(Impulse(n), k, direction, step) == LeadingOnes(n, Pow2(k))
  {
    if k > 0 {
      ImpulseSpreads(n, k - 1, direction, step);
      Pow2Monotone(k, Log2(n));
      var tm := Pow2(k - 1);
      var rotation := RotationTable(k, step(k, direction));
      forall idx | 0 <= idx < n
        ensures Butterflies(LeadingOnes(n, tm), rotation, tm)[idx] == LeadingOnes(n, Pow2(k))[idx]
      {
        SpreadStep(LeadingOnes(n, tm), rotation, tm, idx);
      }
    }
  }

  /** The transform of an impulse is flat: every output is 1/n forward and 1
      backward, whatever the rotations. */
  lemma ImpulseIsFlat(n: nat, direction: Direction, step: (int, Direction) -> Complex)
    requires ValidLength(n)
    ensures FFTSpec(Impulse(n), direction, step).Ok?
    ensures var out := FFTSpec(Impulse(n), direction, step).value;
      forall i :: 0 <= i < n ==> out[i] == (if direction == Forward then Complex(1.0 / n as real, 0.0) else One)
  {
    var m := Log2(n);
    forall i | 0 <= i < n
      ensures BitReversed(Impulse(n))[i] == Impulse(n)[i]
    {
      RevZero(m);
      if Mirror(i, m) == 0 {
        RevInjective(i, 0, m);
      }
    }
    assert BitReversed(Impulse(n)) == Impulse(n);
    ImpulseSpreads(n, m, direction, step);
    ScaleUnits(n as real);
  }

  /** Silence in, silence out. */
  lemma {:induction false} ZeroPasses(n: nat, k: nat, direction: Direction, step: (int, Direction) -> Complex)
    requires ValidLength(n) && k <= Log2(n)
    ensures Passes(Zeros(n), k, direction, step) == Zeros(n)
  {
    if k > 0 {
      ZeroPasses(n, k - 1, direction, step);
      Pow2Monotone(k, Log2(n));
      var tm := Pow2(k - 1);
      var rotation := RotationTable(k, step(k, direction));
      forall idx | 0 <= idx < n
        ensures Butterflies(Zeros(n), rotation, tm)[idx] == Zero
      {
        SilentStep(n, rotation, tm, idx);
      }
    }
  }

  lemma ZeroIsFixed(n: nat, direction: Direction, step: (int, Direction) -> Complex)
    requires ValidLength(n)
    ensures FFTSpec(Zeros(n), direction, step) == Ok(Zeros(n))
  {
    assert BitReversed(Zeros(n)) == Zeros(n);
    ZeroPasses(n, Log2(n), direction, step);
    ScaleUnits(n as real);
    assert Normalized(Zeros(n), direction) == Zeros(n);
  }

  /** The opposite direction. */
  function Opposite(direction: Direction): Direction {
    if direction == Forward then Backward else Forward
  }

  /** The rotations with the two directions exchanged. */
  function Flip(step: (int, Direction) -> Complex): (int, Direction) -> Complex {
    (b, dir) => step(b, Opposite(dir))
  }

  /** The passes depend on the rotations only through the step of each pass. */
  lemma {:induction false} PassesDependOnSteps(d: seq<Complex>, k: nat, direction1: Direction, step1: (int, Direction) -> Complex,
                                               direction2: Direction, step2: (int, Direction) -> Complex)
    requires IsPowerOf2(|d|) && k <= Log2(|d|)
    requires forall j :: 1 <= j <= k ==> step1(j, direction1) == step2(j, direction2)
    ensures Passes(d, k, direction1, step1) == Passes(d, k, direction2, step2)
  {
    if k > 0 {
      PassesDependOnSteps(d, k - 1, direction1, step1, direction2, step2);
    }
  }

  /** Direction matters only through the rotations and the division: the
      passes forward are the passes backward run with the forward rotations. */
  lemma PassesDependOnRotationsOnly(d: seq<Complex>, k: nat, step: (int, Direction) -> Complex)
    requires IsPowerOf2(|d|) && k <= Log2(|d|)
    ensures Passes(d, k, Forward, step) == Passes(d, k, Backward, Flip(step))
  {
    var flipped := Flip(step);
    forall j | 1 <= j <= k
      ensures step(j, Forward) == flipped(j, Backward)
    {
      assert flipped == (b, dir) => step(b, Opposite(dir));
      assert flipped(j, Backward) == step(j, Opposite(Backward));
    }
    PassesDependOnSteps(d, k, Forward, step, Backward, flipped);
  }

  /** So the forward transform is the backward one with the rotations
      exchanged, divided by n. */
  lemma ForwardIsScaledBackward(data: seq<Complex>, step: (int, Direction) -> Complex)
    requires ValidLength(|data|)
    ensures var fwd := FFTSpec(data, Forward, step).value;
      var bwd := FFTSpec(data, Backward, Flip(step)).value;
      |fwd| == |bwd| && forall i :: 0 <= i < |fwd| ==> fwd[i] == Scale(bwd[i], |data| as real)
  {
    PassesDependOnRotationsOnly(BitReversed(data), Log2(|data|), step);
  }

  /* ---------------------------------------------------------------------
     The two-dimensional transform (FFT2)
     --------------------------------------------------------------------- */

  /** A k x width array, stored as its rows. */
  predicate IsMatrix(m: seq<seq<Complex>>, width: nat) {
    forall i :: 0 <= i < |m| ==> |m[i]| == width
  }

  function ColumnOf(m: seq<seq<Complex>>, j: nat): (c: seq<Complex>)
    requires forall i :: 0 <= i < |m| ==> j < |m[i]|
    ensures |c| == |m|
    ensures forall i :: 0 <= i < |m| ==> c[i] == m[i][j]
  {
    seq(|m|, i requires 0 <= i < |m| => m[i][j])
  }

  /** Every row transformed. */
  function RowTransforms(data: seq<seq<Complex>>, width: nat, direction: Direction, step: (int, Direction) -> Complex)
    : (rows: seq<seq<Complex>>)
    requires IsMatrix(data, width) && ValidLength(width)
    ensures |rows| == |data| && IsMatrix(rows, width)
  {
    seq(|data|, i requires 0 <= i < |data| => FFTSpec(data[i], direction, step).value)
  }

  /** Every column transformed. */
  function ColumnTransforms(rows: seq<seq<Complex>>, width: nat, direction: Direction, step: (int, Direction) -> Complex)
    : (m: seq<seq<Complex>>)
    requires IsMatrix(rows, width) && ValidLength(|rows|)
    ensures |m| == |rows| && IsMatrix(m, width)
  {
    seq(|rows|, i requires 0 <= i < |rows| =>
      seq(width, j requires 0 <= j < width => FFTSpec(ColumnOf(rows, j), direction, step).value[i]))
  }

  /** The reference result of FFT2: a length error unless both dimensions are
      valid, otherwise the rows transformed and then the columns of that. */
  function FFT2Spec(data: seq<seq<Complex>>, width: nat, direction: Direction, step: (int, Direction) -> Complex)
    : (r: Result<seq<seq<Complex>>>)
    requires IsMatrix(data, width)
    ensures r.Ok? ==> |r.value| == |data| && IsMatrix(r.value, width)
  {
    if !ValidLength(|data|) || !ValidLength(width) then Fail(InvalidLength)
    else Ok(ColumnTransforms(RowTransforms(data, width, direction, step), width, direction, step))
  }

  /** FFT of a row or column FFT2 has already checked: it succeeds, and the
      caches grow from `bits0` and `rotations0` as before. */
  method TransformLine(line: seq<Complex>, direction: Direction, step: (int, Direction) -> Complex,
                       bits0: BitsCache, rotations0: RotationCache, bitsCache: BitsCache, rotationCache: RotationCache)
    returns (out: seq<Complex>, bitsCache': BitsCache, rotationCache': RotationCache)
    requires ValidLength(|line|)
    requires ValidBitsCache(bitsCache) && ValidRotationCache(rotationCache, step)
    requires Extends(bits0, bitsCache) && Extends(rotations0, rotationCache)
    ensures out == FFTSpec(line, direction, step).value
    ensures ValidBitsCache(bitsCache') && ValidRotationCache(rotationCache', step)
    ensures Extends(bits0, bitsCache') && Extends(rotations0, rotationCache')
    ensures HoldsTables(bitsCache', rotationCache', Log2(|line|), direction)
  {
    var r;
    r, bitsCache', rotationCache' := FFT(line, direction, step, bitsCache, rotationCache);
    ExtendsTransitive(bits0, bitsCache, bitsCache');
    ExtendsTransitive(rotations0, rotationCache, rotationCache');
    out := r.value;
  }

  /** The row loop of FFT2: copy each row out, transform it, copy it back. */
  method TransformRows(data: seq<seq<Complex>>, width: nat, direction: Direction, step: (int, Direction) -> Complex,
                       bitsCache: BitsCache, rotationCache: RotationCache)
    returns (rows: seq<seq<Complex>>, bitsCache': BitsCache, rotationCache': RotationCache)
    requires IsMatrix(data, width) && ValidLength(width)
    requires ValidBitsCache(bitsCache) && ValidRotationCache(rotationCache, step)
    ensures ValidBitsCache(bitsCache') && ValidRotationCache(rotationCache', step)
    ensures Extends(bitsCache, bitsCache') && Extends(rotationCache, rotationCache')
    ensures |data| > 0 ==> HoldsTables(bitsCache', rotationCache', Log2(width), direction)
    ensures rows == RowTransforms(data, width, direction, step)
  {
    bitsCache', rotationCache' := bitsCache, rotationCache;
    rows := [];
    var i := 0;
    while i < |data|
      invariant 0 <= i <= |data| && |rows| == i
      invariant forall a :: 0 <= a < i ==> rows[a] == FFTSpec(data[a], direction, step).value
      invariant ValidBitsCache(bitsCache') && ValidRotationCache(rotationCache', step)
      invariant Extends(bitsCache, bitsCache') && Extends(rotationCache, rotationCache')
      invariant i > 0 ==> HoldsTables(bitsCache', rotationCache', Log2(width), direction)
    {
      var row := data[i];
      var out;
      out, bitsCache', rotationCache' := TransformLine(row, direction, step, bitsCache, rotationCache, bitsCache', rotationCache');
      rows := rows + [out];
      i := i + 1;
    }
  }

  /** The column loop of FFT2 after j steps: the columns before j are
      transformed, the others are as in `rows`. */
  predicate ColumnsDone(m: seq<seq<Complex>>, rows: seq<seq<Complex>>, width: nat, j: nat, direction: Direction,
                        step: (int, Direction) -> Complex)
    requires IsMatrix(rows, width) && ValidLength(|rows|)
  {
    |m| == |rows| && IsMatrix(m, width) && j <= width
    && forall a, b :: 0 <= a < |rows| && 0 <= b < width ==>
      m[a][b] == (if b < j then FFTSpec(ColumnOf(rows, b), direction, step).value[a] else rows[a][b])
  }

  /** With every column done, the matrix is the reference column transform. */
  lemma ColumnsComplete(m: seq<seq<Complex>>, rows: seq<seq<Complex>>, width: nat, direction: Direction,
                        step: (int, Direction) -> Complex)
    requires IsMatrix(rows, width) && ValidLength(|rows|)
    requires ColumnsDone(m, rows, width, width, direction, step)
    ensures m == ColumnTransforms(rows, width, direction, step)
  {
    var expected := ColumnTransforms(rows, width, direction, step);
    forall a | 0 <= a < |rows|
      ensures m[a] == expected[a]
    {
      assert forall b :: 0 <= b < width ==> m[a][b] == expected[a][b];
    }
  }

  /** The column loop of FFT2: copy each column out, transform it, copy it back. */
  method TransformColumns(rows: seq<seq<Complex>>, width: nat, direction: Direction, step: (int, Direction) -> Complex,
                          bitsCache: BitsCache, rotationCache: RotationCache)
    returns (m: seq<seq<Complex>>, bitsCache': BitsCache, rotationCache': RotationCache)
    requires IsMatrix(rows, width) && ValidLength(|rows|)
    requires ValidBitsCache(bitsCache) && ValidRotationCache(rotationCache, step)
    ensures ValidBitsCache(bitsCache') && ValidRotationCache(rotationCache', step)
    ensures Extends(bitsCache, bitsCache') && Extends(rotationCache, rotationCache')
    ensures width > 0 ==> HoldsTables(bitsCache', rotationCache', Log2(|rows|), direction)
    ensures m == ColumnTransforms(rows, width, direction, step)
  {
    bitsCache', rotationCache' := bitsCache, rotationCache;
    m := rows;
    var j := 0;
    while j < width
      invariant j <= width && ColumnsDone(m, rows, width, j, direction, step)
      invariant ValidBitsCache(bitsCache') && ValidRotationCache(rotationCache', step)
      invariant Extends(bitsCache, bitsCache') && Extends(rotationCache, rotationCache')
      invariant j > 0 ==> HoldsTables(bitsCache', rotationCache', Log2(|rows|), direction)
    {
      m, bitsCache', rotationCache' := TransformColumn(rows, m, j, width, direction, step,
                                                       bitsCache, rotationCache, bitsCache', rotationCache');
      j := j + 1;
    }
    ColumnsComplete(m, rows, width, direction, step);
  }

  /** One step of the column loop: column j of m, still column j of `rows`,
      copied out, transformed and copied back. */
  method TransformColumn(rows: seq<seq<Complex>>, m: seq<seq<Complex>>, j: nat, width: nat, direction: Direction,
                         step: (int, Direction) -> Complex, bits0: BitsCache, rotations0: RotationCache,
                         bitsCache: BitsCache, rotationCache: RotationCache)
    returns (m': seq<seq<Complex>>, bitsCache': BitsCache, rotationCache': RotationCache)
    requires IsMatrix(rows, width) && ValidLength(|rows|) && j < width
    requires ColumnsDone(m, rows, width, j, direction, step)
    requires ValidBitsCache(bitsCache) && ValidRotationCache(rotationCache, step)
    requires Extends(bits0, bitsCache) && Extends(rotations0, rotationCache)
    ensures ColumnsDone(m', rows, width, j + 1, direction, step)
    ensures ValidBitsCache(bitsCache') && ValidRotationCache(rotationCache', step)
    ensures Extends(bits0, bitsCache') && Extends(rotations0, rotationCache')
    ensures HoldsTables(bitsCache', rotationCache', Log2(|rows|), direction)
  {
    var col := ColumnOf(m, j);
    assert col == ColumnOf(rows, j);
    var out;
    out, bitsCache', rotationCache' := TransformLine(col, direction, step, bits0, rotations0, bitsCache, rotationCache);
    m' := seq(|rows|, a requires 0 <= a < |rows| => m[a][j := out[a]]);
  }

  /** FFT2: checks both dimensions, then transforms each row and then each
      column. */
  method FFT2(data: seq<seq<Complex>>, width: nat, direction: Direction, step: (int, Direction) -> Complex,
              bitsCache: BitsCache, rotationCache: RotationCache)
    returns (r: Result<seq<seq<Complex>>>, bitsCache': BitsCache, rotationCache': RotationCache)
    requires IsMatrix(data, width)
    requires ValidBitsCache(bitsCache) && ValidRotationCache(rotationCache, step)
    ensures ValidBitsCache(bitsCache') && ValidRotationCache(rotationCache', step)
    ensures Extends(bitsCache, bitsCache') && Extends(rotationCache, rotationCache')
    ensures r.Fail? <==> !ValidLength(|data|) || !ValidLength(width)
    ensures r.Fail? ==> bitsCache' == bitsCache && rotationCache' == rotationCache
    ensures r.Ok? ==> (ValidLength(|data|) && ValidLength(width)
      && HoldsTables(bitsCache', rotationCache', Log2(|data|), direction)
      && HoldsTables(bitsCache', rotationCache', Log2(width), direction))
    ensures r == FFT2Spec(data, width, direction, step)
  {
    var k := |data|;
    var n := width;
    if !IsPowerOf2(k) || !IsPowerOf2(n) || k < MinLength || k > MaxLength || n < MinLength || n > MaxLength {
      return Fail(InvalidLength), bitsCache, rotationCache;
    }
    var rows, m;
    rows, bitsCache', rotationCache' := TransformRows(data, width, direction, step, bitsCache, rotationCache);
    var bits, rotations := bitsCache', rotationCache';
    m, bitsCache', rotationCache' := TransformColumns(rows, width, direction, step, bits, rotations);
    ExtendsTransitive(bitsCache, bits, bitsCache');
    ExtendsTransitive(rotationCache, rotations, rotationCache');
    HoldsTablesKept(bits, rotations, bitsCache', rotationCache', Log2(width), direction);
    r := Ok(m);
  }
}
