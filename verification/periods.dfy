/** The note-to-period lookup table of the bridge. Entry `n` is the period,
    in microseconds, of MIDI note `n`; the four octaves from C1 (note 24) to
    B4 (note 71) are populated and every other note is 0 (no sound). The
    table is written row by row, twelve notes per row, as it is laid out in
    the program. */
module Periods {
  import opened Bytes

  /** Twelve notes the bridge does not play. */
  const SilentRow: seq<nat> := [0, 0, 0, 0, 0, 0, 0, 0, 0, 0, 0, 0]

  /** C1 to B1 (notes 24 to 35). */
  const OctaveOne: seq<nat> :=
    [30578, 28861, 27242, 25713, 24270, 22909, 21622, 20409, 19263, 18182, 17161, 16198]

  /** C2 to B2 (notes 36 to 47). */
  const OctaveTwo: seq<nat> :=
    [15289, 14436, 13621, 12856, 12135, 11454, 10811, 10205, 9632, 9091, 8581, 8099]

  /** C3 to B3 (notes 48 to 59). */
  const OctaveThree: seq<nat> :=
    [7645, 7218, 6811, 6428, 6068, 5727, 5406, 5103, 4816, 4546, 4291, 4050]

  /** C4 to B4 (notes 60 to 71). */
  const OctaveFour: seq<nat> :=
    [3823, 3609, 3406, 3214, 3034, 2864, 2703, 2552, 2408, 2273, 2146, 2025]

  /** The populated part of the table, notes 24 to 71. */
  const SoundingRows: seq<nat> := OctaveOne + OctaveTwo + OctaveThree + OctaveFour

  /** `micro_periods`: two silent rows, four octaves, three silent rows. */
  const MicroPeriods: seq<nat> :=
    SilentRow + SilentRow + SoundingRows + SilentRow + SilentRow + SilentRow

  /** The first note with a non-zero period (C1) and the first note after
      the populated range (C5). */
  const LowestNote: nat := 24
  const HighestNoteBound: nat := 72

  /** Each table entry is divided by `40 * 2` before it is sent. */
  const PeriodDivisor: nat := 40 * 2

  predicate InTable(note: int)
  {
    0 <= note < |MicroPeriods|
  }

  predicate Sounding(note: int)
  {
    LowestNote <= note < HighestNoteBound
  }

  /** `micro_periods[note] / (40 * 2)` under Python 2 integer division. */
  function ScaledPeriod(note: nat): nat
    requires InTable(note)
  {
    MicroPeriods[note] / PeriodDivisor
  }

  // ----- facts about single rows, proved by the verifier from the literals

  /** Adjacent entries of `s` are one equal-tempered semitone apart: their
      ratio lies between 1.059 and 1.060 (2 ** (1/12) is 1.05946...). */
  predicate SemitoneSteps(s: seq<nat>)
  {
    forall i :: 0 <= i < |s| - 1 ==> 1059 * s[i + 1] <= 1000 * s[i] <= 1060 * s[i + 1]
  }

  /** Every entry of `s` lies in `lo..hi`. */
  predicate Within(s: seq<nat>, lo: nat, hi: nat)
  {
    forall i :: 0 <= i < |s| ==> lo <= s[i] <= hi
  }

  lemma SilentRowFacts()
    ensures |SilentRow| == 12 && Within(SilentRow, 0, 0)
  {
  }

  lemma OctaveOneRange()
    ensures |OctaveOne| == 12 && Within(OctaveOne, 16198, 30578)
  {
  }

  lemma OctaveOneSteps()
    ensures SemitoneSteps(OctaveOne)
  {
    assert |OctaveOne| == 12;
  }

  lemma OctaveTwoRange()
    ensures |OctaveTwo| == 12 && Within(OctaveTwo, 8099, 15289)
  {
  }

  lemma OctaveTwoSteps()
    ensures SemitoneSteps(OctaveTwo)
  {
    assert |OctaveTwo| == 12;
  }

  lemma OctaveThreeRange()
    ensures |OctaveThree| == 12 && Within(OctaveThree, 4050, 7645)
  {
  }

  lemma OctaveThreeSteps()
    ensures SemitoneSteps(OctaveThree)
  {
    assert |OctaveThree| == 12;
  }

  lemma OctaveFourRange()
    ensures |OctaveFour| == 12 && Within(OctaveFour, 2025, 3823)
  {
  }

  lemma OctaveFourSteps()
    ensures SemitoneSteps(OctaveFour)
  {
    assert |OctaveFour| == 12;
  }

  /** The entry of note `n` read from the row that holds it. */
  lemma Entry(n: nat)
    requires n < 108
    ensures |MicroPeriods| == 108 && |SoundingRows| == 48
    ensures n < 24 ==> MicroPeriods[n] == 0
    ensures 24 <= n < 36 ==> MicroPeriods[n] == OctaveOne[n - 24]
    ensures 36 <= n < 48 ==> MicroPeriods[n] == OctaveTwo[n - 36]
    ensures 48 <= n < 60 ==> MicroPeriods[n] == OctaveThree[n - 48]
    ensures 60 <= n < 72 ==> MicroPeriods[n] == OctaveFour[n - 60]
    ensures 72 <= n ==> MicroPeriods[n] == 0
  {
    SilentRowFacts();
    OctaveOneRange();
    OctaveTwoRange();
    OctaveThreeRange();
    OctaveFourRange();
  }

  /** Within the octave pair `lower`/`upper`, each period is twice the one
      twelve notes higher, to within 1 microsecond, except at index `skip`. */
  predicate Halves(lower: seq<nat>, upper: seq<nat>, skip: int)
  {
    forall i :: 0 <= i < |lower| && i < |upper| && i != skip ==> lower[i] <= 2 * upper[i] + 1 && 2 * upper[i] <= lower[i] + 1
  }

  lemma OctavePairFacts()
    ensures Halves(OctaveOne, OctaveTwo, 1)
    ensures Halves(OctaveTwo, OctaveThree, -1)
    ensures Halves(OctaveThree, OctaveFour, -1)
  {
  }

  // ----- facts about the whole table

  /** The table has 108 entries, so it is indexed by notes 0 to 107. */
  lemma TableSize()
    ensures |MicroPeriods| == 108
  {
  }

  /** An entry is zero exactly outside the four populated octaves; inside
      them it is at least the period of B4. */
  lemma SilentIffZero(n: nat)
    requires InTable(n)
    ensures MicroPeriods[n] == 0 <==> !Sounding(n)
    ensures Sounding(n) ==> MicroPeriods[n] >= 2025
  {
    Entry(n);
    OctaveOneRange();
    OctaveTwoRange();
    OctaveThreeRange();
    OctaveFourRange();
  }

  /** The largest entry is the period of C1, 30578. */
  lemma TableBound(n: nat)
    requires InTable(n)
    ensures MicroPeriods[n] <= MicroPeriods[LowestNote] == 30578
  {
    Entry(n);
    Entry(LowestNote);
    OctaveOneRange();
    OctaveTwoRange();
    OctaveThreeRange();
    OctaveFourRange();
  }

  /** The value sent for a note is at most 382, so its high byte is at most
      1; it is zero exactly for the notes the bridge does not play. */
  lemma ScaledPeriodBound(n: nat)
    requires InTable(n)
    ensures ScaledPeriod(n) <= 382
    ensures HighByte(ScaledPeriod(n)) <= 1
    ensures ScaledPeriod(n) == 0 <==> !Sounding(n)
  {
    TableBound(n);
    SilentIffZero(n);
  }

  /** Consecutive populated notes are an equal-tempered semitone apart. */
  lemma SemitoneSpacing(n: nat)
    requires Sounding(n) && Sounding(n + 1)
    ensures 1059 * MicroPeriods[n + 1] <= 1000 * MicroPeriods[n] <= 1060 * MicroPeriods[n + 1]
  {
    Entry(n);
    Entry(n + 1);
    OctaveOneSteps();
    OctaveTwoSteps();
    OctaveThreeSteps();
    OctaveFourSteps();
  }

  /** A note's period is twice the period of the note an octave higher, to
      within 1 microsecond; the one exception is C#1/C#2 (notes 25 and 37),
      where the table is 11 microseconds off. */
  lemma OctaveHalving(n: nat)
    requires Sounding(n) && Sounding(n + 12)
    ensures n != 25 ==> MicroPeriods[n] <= 2 * MicroPeriods[n + 12] + 1 && 2 * MicroPeriods[n + 12] <= MicroPeriods[n] + 1
    ensures n == 25 ==> MicroPeriods[n] + 11 == 2 * MicroPeriods[n + 12]
  {
    Entry(n);
    Entry(n + 12);
    OctavePairFacts();
  }

  /** A higher populated note has a strictly smaller scaled period: the
      division by 80 never merges two neighbouring notes. */
  lemma ScaledStep(n: nat)
    requires Sounding(n) && Sounding(n + 1)
    ensures ScaledPeriod(n + 1) < ScaledPeriod(n)
  {
    SemitoneSpacing(n);
    SilentIffZero(n + 1);
    var x, y := MicroPeriods[n], MicroPeriods[n + 1];
    assert 1000 * x >= 1000 * y + 59 * 2025;
    DivisionSeparates(x, y);
  }

  /** Two periods at least 80 apart scale to different values. */
  lemma DivisionSeparates(x: nat, y: nat)
    requires x >= y + 80
    ensures x / PeriodDivisor > y / PeriodDivisor
  {
    var q := y / 80;
    assert x >= 80 * (q + 1);
  }

  /** Across the populated range, the scaled period strictly decreases as
      the note rises. */
  lemma {:induction false} ScaledStrictlyDecreasing(a: nat, b: nat)
    requires Sounding(a) && Sounding(b) && a < b
    ensures ScaledPeriod(b) < ScaledPeriod(a)
    decreases b - a
  {
    ScaledStep(b - 1);
    if a < b - 1 {
      ScaledStrictlyDecreasing(a, b - 1);
    }
  }
}
