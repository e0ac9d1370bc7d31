/** The pitch table of Frequency (loadPitches, the Pitch and PitchConstants
    classes) and the nearest-pitch lookup getPitch.

    The equal-tempered factor 2^(i/12) is not computed: the table takes
    `ratio`, where ratio(i) stands for Math.Pow(2.0, i / 12.0); only
    ratio(0) == 1 is relied on. */
module Pitches {
  import opened Results
  import opened Config
  import opened Spectrum

  datatype Letter = A | B | C | D | E | F | G
  datatype Accidental = Natural | Sharp

  /** A Pitch; its note and accidental stay null (None) when no branch of
      loadPitches assigns them. */
  datatype Pitch = Pitch(note: Option<Letter>, accidental: Option<Accidental>, fundamentalFreq: real)

  /* ---------------------------------------------------------------------
     The note/accidental automaton of loadPitches
     --------------------------------------------------------------------- */

  /** The loop state of loadPitches: x selects the letter (1 = A .. 7 = G),
      z alternates natural and sharp, y says whether the letter has a sharp. */
  datatype State = State(x: int, z: int, y: bool)

  const Start: State := State(3, 0, true)

  /** What one iteration assigns, and the state it leaves. */
  datatype Emitted = Emitted(note: Option<Letter>, accidental: Option<Accidental>, next: State)

  /** One iteration of the loop body, default branches included. The
      accidental is chosen from the old y, the letter then sets the new y,
      and x advances after a sharp or after a letter without one. */
  function Step(s: State): Emitted {
    var accidental := if !s.y then Some(Natural)
                      else if s.z == 0 then Some(Natural)
                      else if s.z == 1 then Some(Sharp)
                      else None;
    var z := if !s.y then s.z else if s.z == 0 then s.z + 1 else if s.z == 1 then 0 else s.z;
    var note := match s.x
      case 1 => Some(A)
      case 2 => Some(B)
      case 3 => Some(C)
      case 4 => Some(D)
      case 5 => Some(E)
      case 6 => Some(F)
      case 7 => Some(G)
      case _ => None;
    var y := if s.x == 2 || s.x == 5 then false else if 1 <= s.x <= 7 then true else s.y;
    var x := if 1 <= s.x <= 7 then s.x else 1;
    var x' := if accidental == Some(Sharp) || !y then (if x + 1 == 8 then 1 else x + 1) else x;
    Emitted(note, accidental, State(x', z, y))
  }

  /** The state at the start of iteration k (k = i + 33). */
  function StateBefore(k: nat): State {
    if k == 0 then Start else Step(StateBefore(k - 1)).next
  }

  /** The chromatic scale from C: twelve (letter, accidental) pairs. */
  const Chromatic: seq<(Letter, Accidental)> :=
    [(C, Natural), (C, Sharp), (D, Natural), (D, Sharp), (E, Natural), (F, Natural),
     (F, Sharp), (G, Natural), (G, Sharp), (A, Natural), (A, Sharp), (B, Natural)]

  /** B and E never carry a sharp. */
  lemma NoSharpBOrE()
    ensures forall k :: 0 <= k < |Chromatic| ==> Chromatic[k].0 in {B, E} ==> Chromatic[k].1 == Natural
  {
  }

  /** The states at the start of iterations 0 to 13. */
  const Trace: seq<State> :=
    [State(3, 0, true), State(3, 1, true), State(4, 0, true), State(4, 1, true),
     State(5, 0, true), State(6, 1, false), State(6, 1, true), State(7, 0, true),
     State(7, 1, true), State(1, 0, true), State(1, 1, true), State(2, 0, true),
     State(3, 1, false), State(3, 1, true)]

  /** One step along the trace, and what it assigns. */
  lemma TraceStep(k: nat)
    requires k < 13
    ensures Step(Trace[k]).next == Trace[k + 1]
    ensures Step(Trace[k]).note == Some(Chromatic[k % 12].0)
    ensures Step(Trace[k]).accidental == Some(Chromatic[k % 12].1)
  {
    if k == 0 { assert Step(State(3, 0, true)) == Emitted(Some(C), Some(Natural), State(3, 1, true)); }
    else if k == 1 { assert Step(State(3, 1, true)) == Emitted(Some(C), Some(Sharp), State(4, 0, true)); }
    else if k == 2 { assert Step(State(4, 0, true)) == Emitted(Some(D), Some(Natural), State(4, 1, true)); }
    else if k == 3 { assert Step(State(4, 1, true)) == Emitted(Some(D), Some(Sharp), State(5, 0, true)); }
    else if k == 4 { assert Step(State(5, 0, true)) == Emitted(Some(E), Some(Natural), State(6, 1, false)); }
    else if k == 5 { assert Step(State(6, 1, false)) == Emitted(Some(F), Some(Natural), State(6, 1, true)); }
    else if k == 6 { assert Step(State(6, 1, true)) == Emitted(Some(F), Some(Sharp), State(7, 0, true)); }
    else if k == 7 { assert Step(State(7, 0, true)) == Emitted(Some(G), Some(Natural), State(7, 1, true)); }
    else if k == 8 { assert Step(State(7, 1, true)) == Emitted(Some(G), Some(Sharp), State(1, 0, true)); }
    else if k == 9 { assert Step(State(1, 0, true)) == Emitted(Some(A), Some(Natural), State(1, 1, true)); }
    else if k == 10 { assert Step(State(1, 1, true)) == Emitted(Some(A), Some(Sharp), State(2, 0, true)); }
    else if k == 11 { assert Step(State(2, 0, true)) == Emitted(Some(B), Some(Natural), State(3, 1, false)); }
    else { assert Step(State(3, 1, false)) == Emitted(Some(C), Some(Natural), State(3, 1, true)); }
  }

  /** The first fourteen states are the trace. */
  lemma {:induction false} StateBeforeIsTrace(k: nat)
    requires k <= 13
    ensures StateBefore(k) == Trace[k]
  {
    if k > 0 {
      StateBeforeIsTrace(k - 1);
      TraceStep(k - 1);
    }
  }

  /** After its first iteration the automaton has period 12. */
  lemma {:induction false} StatePeriodic(k: nat)
    requires k >= 1
    ensures StateBefore(k + 12) == StateBefore(k)
  {
    if k == 1 {
      StateBeforeIsTrace(1);
      StateBeforeIsTrace(13);
    } else {
      StatePeriodic(k - 1);
    }
  }

  /** Iteration k assigns element k mod 12 of the chromatic scale. */
  lemma {:induction false} EmitsChromatic(k: nat)
    ensures Step(StateBefore(k)).note == Some(Chromatic[k % 12].0)
    ensures Step(StateBefore(k)).accidental == Some(Chromatic[k % 12].1)
    decreases k
  {
    if k >= 13 {
      StatePeriodic(k - 12);
      EmitsChromatic(k - 12);
      assert (k - 12) % 12 == k % 12;
    } else {
      StateBeforeIsTrace(k);
      TraceStep(k);
    }
  }

  /* ---------------------------------------------------------------------
     The table
     --------------------------------------------------------------------- */

  /** The 60 pitches from offset -33 (C three octaves and a sixth below A)
      to offset 26. */
  const TableSize: int := 60
  const ConcertOffset: int := 33

  /** The reference table: entry k is the k mod 12th note of the chromatic
      scale from C, at concert * ratio(k - 33). */
  function PitchTable(concert: real, ratio: int -> real): (t: seq<Pitch>)
    ensures |t| == TableSize
  {
    seq(TableSize, k requires 0 <= k < TableSize =>
      Pitch(Some(Chromatic[k % 12].0), Some(Chromatic[k % 12].1), concert * ratio(k - ConcertOffset)))
  }

  /** loadPitches: one pitch per offset i in [-33, 27), each named by the
      automaton and tuned to concert * 2^(i/12). The result is the chromatic
      table, so entry 33 is A natural at the concert frequency itself. */
  method LoadPitches(concert: real, ratio: int -> real) returns (pitches: seq<Pitch>)
    requires ratio(0) == 1.0
    ensures pitches == PitchTable(concert, ratio)
    ensures pitches[ConcertOffset] == Pitch(Some(A), Some(Natural), concert)
  {
    var s := Start;
    pitches := [];
    var i := -33;
    while i < 27
      invariant -33 <= i <= 27 && |pitches| == i + 33
      invariant s == StateBefore(i + 33)
      invariant forall k :: 0 <= k < i + 33 ==> pitches[k] == PitchTable(concert, ratio)[k]
    {
      var e := Step(s);
      TableEntry(concert, ratio, i + 33);
      pitches := pitches + [Pitch(e.note, e.accidental, concert * ratio(i))];
      s := e.next;
      i := i + 1;
    }
    ConcertEntry(concert, ratio);
  }

  /** Entry k of the table is what iteration k of the automaton assigns. */
  lemma TableEntry(concert: real, ratio: int -> real, k: nat)
    requires k < TableSize
    ensures var e := Step(StateBefore(k));
      PitchTable(concert, ratio)[k] == Pitch(e.note, e.accidental, concert * ratio(k - ConcertOffset))
  {
    EmitsChromatic(k);
  }

  /** Offset 0 is A natural at the concert frequency. */
  lemma ConcertEntry(concert: real, ratio: int -> real)
    requires ratio(0) == 1.0
    ensures PitchTable(concert, ratio)[ConcertOffset] == Pitch(Some(A), Some(Natural), concert)
  {
    assert Chromatic[ConcertOffset % 12] == (A, Natural);
  }

  /** With the configured concert pitch the table's A natural is 440 Hz. */
  lemma ConfiguredConcertA(ratio: int -> real)
    requires ratio(0) == 1.0
    ensures PitchTable(ConcertAFreq, ratio)[ConcertOffset] == Pitch(Some(A), Some(Natural), 440.0)
  {
    ConcertEntry(ConcertAFreq, ratio);
  }

  /* ---------------------------------------------------------------------
     getPitch
     --------------------------------------------------------------------- */

  function Abs(x: real): real {
    if x < 0.0 then -x else x
  }

  /** The sort key Math.Abs(f.fundamentalFreq - frequency) as a double: a
      finite distance, or +Infinity when the frequency is the -Infinity that
      calcFundamentalFreq can return (every table frequency is finite). */
  datatype Gap = Gap(value: real) | Unbounded

  function Distance(p: Pitch, frequency: Extended): Gap {
    match frequency
    case Finite(f) => Gap(Abs(p.fundamentalFreq - f))
    case MinusInfinity => Unbounded
  }

  /** The double ordering of keys: +Infinity compares equal to itself and
      above every finite distance. */
  predicate Closer(a: Gap, b: Gap) {
    a.Gap? && (b.Unbounded? || a.value < b.value)
  }

  predicate NoFarther(a: Gap, b: Gap) {
    !Closer(b, a)
  }

  /** k is the first entry of the list closest to the frequency. */
  predicate IsFirstNearest(pitches: seq<Pitch>, frequency: Extended, k: int) {
    0 <= k < |pitches|
    && (forall j :: 0 <= j < |pitches| ==> NoFarther(Distance(pitches[k], frequency), Distance(pitches[j], frequency)))
    && (forall j :: 0 <= j < k ==> Closer(Distance(pitches[k], frequency), Distance(pitches[j], frequency)))
  }

  /** The first closest entry, found from the right. */
  function NearestIndex(pitches: seq<Pitch>, frequency: Extended, lo: nat): (k: nat)
    requires lo < |pitches|
    ensures lo <= k < |pitches|
    decreases |pitches| - lo
  {
    if lo + 1 == |pitches| then lo
    else
      var m := NearestIndex(pitches, frequency, lo + 1);
      if NoFarther(Distance(pitches[lo], frequency), Distance(pitches[m], frequency)) then lo else m
  }

  lemma {:induction false} NearestIndexIsFirstNearest(pitches: seq<Pitch>, frequency: Extended, lo: nat)
    requires lo < |pitches|
    ensures var k := NearestIndex(pitches, frequency, lo);
      (forall j :: lo <= j < |pitches| ==> NoFarther(Distance(pitches[k], frequency), Distance(pitches[j], frequency)))
      && (forall j :: lo <= j < k ==> Closer(Distance(pitches[k], frequency), Distance(pitches[j], frequency)))
    decreases |pitches| - lo
  {
    if lo + 1 < |pitches| {
      NearestIndexIsFirstNearest(pitches, frequency, lo + 1);
    }
  }

  lemma EarlierIsFarther(pitches: seq<Pitch>, frequency: Extended, k: int, j: int)
    requires IsFirstNearest(pitches, frequency, k) && 0 <= j < k
    ensures Closer(Distance(pitches[k], frequency), Distance(pitches[j], frequency))
    ensures NoFarther(Distance(pitches[k], frequency), Distance(pitches[j], frequency))
  {
  }

  /** The first closest entry is unique. */
  lemma FirstNearestUnique(pitches: seq<Pitch>, frequency: Extended, k1: int, k2: int)
    requires IsFirstNearest(pitches, frequency, k1) && IsFirstNearest(pitches, frequency, k2)
    ensures k1 == k2
  {
    if k1 < k2 {
      EarlierIsFarther(pitches, frequency, k2, k1);
      assert false;
    } else if k2 < k1 {
      EarlierIsFarther(pitches, frequency, k1, k2);
      assert false;
    }
  }

  /** getPitch: the list ordered by distance to the frequency (a stable sort,
      so ties keep list order), then its first element; First fails on an
      empty list. */
  function GetPitch(frequency: Extended, pitches: seq<Pitch>): (r: Result<Pitch>)
    ensures r.Fail? <==> |pitches| == 0
    ensures r.Fail? ==> r.error == EmptySequence
    ensures r.Ok? ==> exists k :: IsFirstNearest(pitches, frequency, k) && r.value == pitches[k]
  {
    if |pitches| == 0 then Fail(EmptySequence)
    else
      NearestIndexIsFirstNearest(pitches, frequency, 0);
      Ok(pitches[NearestIndex(pitches, frequency, 0)])
  }

  /** The -Infinity that calcFundamentalFreq returns when the right
      neighbour equals the peak puts every entry at distance +Infinity: all
      keys tie, and the stable ordering keeps the list's first entry. */
  lemma MinusInfinityPicksFirst(pitches: seq<Pitch>)
    requires |pitches| > 0
    ensures GetPitch(MinusInfinity, pitches) == Ok(pitches[0])
  {
    var r := GetPitch(MinusInfinity, pitches);
    var k :| IsFirstNearest(pitches, MinusInfinity, k) && r.value == pitches[k];
    assert IsFirstNearest(pitches, MinusInfinity, 0);
    FirstNearestUnique(pitches, MinusInfinity, k, 0);
  }

  /** With the table built by loadPitches, that is the lowest C. */
  lemma MinusInfinityPicksLowestC(concert: real, ratio: int -> real)
    ensures GetPitch(MinusInfinity, PitchTable(concert, ratio)).Ok?
    ensures GetPitch(MinusInfinity, PitchTable(concert, ratio)).value.note == Some(C)
    ensures GetPitch(MinusInfinity, PitchTable(concert, ratio)).value.accidental == Some(Natural)
  {
    MinusInfinityPicksFirst(PitchTable(concert, ratio));
    assert Chromatic[0] == (C, Natural);
  }

  /** Looking up the concert frequency itself finds A natural, when the
      lower offsets have ratios below 1 so that no earlier entry is at that
      frequency. */
  lemma ConcertLookup(concert: real, ratio: int -> real)
    requires concert > 0.0 && ratio(0) == 1.0
    requires forall i :: -ConcertOffset <= i < 0 ==> ratio(i) < 1.0
    ensures GetPitch(Finite(concert), PitchTable(concert, ratio)) == Ok(Pitch(Some(A), Some(Natural), concert))
  {
    var t := PitchTable(concert, ratio);
    ConcertIsFirstNearest(concert, ratio);
    var r := GetPitch(Finite(concert), t);
    var k :| IsFirstNearest(t, Finite(concert), k) && r.value == t[k];
    FirstNearestUnique(t, Finite(concert), k, ConcertOffset);
    ConcertEntry(concert, ratio);
  }

  lemma ConcertIsFirstNearest(concert: real, ratio: int -> real)
    requires concert > 0.0 && ratio(0) == 1.0
    requires forall i :: -ConcertOffset <= i < 0 ==> ratio(i) < 1.0
    ensures IsFirstNearest(PitchTable(concert, ratio), Finite(concert), ConcertOffset)
  {
    var t := PitchTable(concert, ratio);
    ConcertEntry(concert, ratio);
    assert Distance(t[ConcertOffset], Finite(concert)) == Gap(0.0);
    forall j | 0 <= j < ConcertOffset
      ensures Distance(t[j], Finite(concert)).value > 0.0
    {
      assert t[j].fundamentalFreq == concert * ratio(j - ConcertOffset);
      ScaledBelow(concert, ratio(j - ConcertOffset), 1.0);
    }
  }

  lemma ScaledBelow(c: real, a: real, b: real)
    requires c > 0.0 && a < b
    ensures c * a < c * b
  {
  }
}
