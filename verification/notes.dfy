/** The semitone ratios used for pitch extrapolation and the table of
    equal-tempered note frequencies (`Notes` in the Java code). */
module Notes {
  import opened Prelude

  /** Multiplying a frequency by this yields one semitone higher. */
  const OneSemitoneUp: real := 1.059462351977181

  /** Multiplying a frequency by this yields one semitone lower. */
  const OneSemitoneDown: real := 0.9438743126810656

  /** An ascending step raises the rate and a descending step lowers it,
      without ever reaching zero. */
  lemma SemitoneRatioBounds()
    ensures 0.0 < OneSemitoneDown < 1.0 < OneSemitoneUp
  {
  }

  /** The two literals are not reciprocals: a step up followed by a step down
      lands slightly below the starting rate. */
  lemma SemitoneRatiosNotReciprocal()
    ensures OneSemitoneUp * OneSemitoneDown < 1.0
    ensures 1.0 - OneSemitoneUp * OneSemitoneDown > 0.0000007
  {
  }

  /** `k` repeated multiplications by `x`, as the extrapolation loops perform them. */
  function Pow(x: real, k: nat): real
  {
    if k == 0 then 1.0 else Pow(x, k - 1) * x
  }

  lemma {:induction false} PowPositive(x: real, k: nat)
    requires x > 0.0
    ensures Pow(x, k) > 0.0
  {
    if k > 0 {
      PowPositive(x, k - 1);
    }
  }

  /** The frequency table: note number to frequency in Hz. */
  datatype NoteTable = NoteTable(frequencies: map<int, real>)

  /** The highest note the table describes (the table has 129 entries). */
  const HighestTabledNote: int := 128

  /** Builds the table for notes 0..128 as `440 * 2^((note - 16) / 12)`.
      `exp2` stands for `StrictMath.pow(2.0, _)`. */
  function Create(exp2: real -> real): (t: NoteTable)
    ensures t.frequencies.Keys == Range(0, HighestTabledNote + 1)
    ensures |t.frequencies| == HighestTabledNote + 1
  {
    RangeSize(0, HighestTabledNote + 1);
    var keys := Range(0, HighestTabledNote + 1);
    NoteTable(map note | note in keys :: 440.0 * exp2((note - 16) as real / 12.0))
  }

  /** The frequency of `note`, or 0.0 for a note the table does not hold. */
  function FrequencyOfNote(t: NoteTable, note: int): (f: real)
    ensures note in t.frequencies ==> f == t.frequencies[note]
    ensures note !in t.frequencies ==> f == 0.0
  {
    if note in t.frequencies then t.frequencies[note] else 0.0
  }

  /** Notes outside 0..128 have frequency 0.0 whatever `exp2` computes. */
  lemma OutOfTableIsSilent(exp2: real -> real, note: int)
    requires note < 0 || note > HighestTabledNote
    ensures FrequencyOfNote(Create(exp2), note) == 0.0
  {
  }

  /** Note 16 is the reference pitch: the exponent is zero, so its frequency
      is exactly 440 Hz when `2^0 == 1`. */
  lemma ReferencePitch(exp2: real -> real)
    requires exp2(0.0) == 1.0
    ensures FrequencyOfNote(Create(exp2), 16) == 440.0
  {
  }

  /** Every tabled note has the equal-tempered frequency, and so a positive one
      when the power function is positive. */
  lemma TabledFrequencies(exp2: real -> real, note: int)
    requires 0 <= note <= HighestTabledNote
    ensures FrequencyOfNote(Create(exp2), note) == 440.0 * exp2((note - 16) as real / 12.0)
    ensures exp2((note - 16) as real / 12.0) > 0.0 ==> FrequencyOfNote(Create(exp2), note) > 0.0
  {
  }
}
