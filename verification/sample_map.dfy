/** The user's sparse note-to-file description (`SampleMapDescription`) and
    the dense note-to-entry map built from it (`SampleMap`). */
module SampleMaps {
  import opened Prelude
  import opened Samples

  /** A path naming an audio file. */
  type Path = string

  /** A description from note to file, kept as pairs in strictly ascending
      note order: the order `load` walks the notes in, once it has copied them
      into a naturally ordered tree map. */
  datatype Description = Description(filesByNote: seq<(Int32, Path)>)
  {
    predicate Sorted()
    {
      forall i, j :: 0 <= i < j < |filesByNote| ==> filesByNote[i].0 < filesByNote[j].0
    }
  }

  function EmptyDescription(): (d: Description)
    ensures d.filesByNote == []
  {
    Description([])
  }

  /** The number of notes a non-empty map must cover. */
  const NoteCount: int := 128

  datatype MapError = IllegalArgument(message: string)

  datatype SampleMap = SampleMap(samples: map<int, Entry>, description: Description)
  {
    /** What the constructor enforces: no entries or exactly 128 of them. */
    predicate Valid()
    {
      |samples| == 0 || |samples| == NoteCount
    }
  }

  /** The silent fallback entry: a stereo buffer of one zero frame at rate 1.0. */
  function EmptyEntry(): (e: Entry)
    ensures e.playbackRate == 1.0
    ensures e.sample.channels == 2 && e.sample.Frames() == 1
    ensures e.sample.data[0] == [0.0, 0.0]
  {
    Entry(Sample(2, [[0.0, 0.0]]), 1.0)
  }

  /** The constructor: rejects a non-empty map whose size is not 128. Only the
      number of entries is checked, not which notes they belong to. */
  function NewSampleMap(samples: map<int, Entry>, description: Description)
    : (r: Result<SampleMap, MapError>)
    ensures r.Success? <==> (|samples| == 0 || |samples| == NoteCount)
    ensures r.Success? ==> r.value.samples == samples && r.value.description == description
    ensures r.Success? ==> r.value.Valid()
  {
    if |samples| != 0 && |samples| != NoteCount then
      Failure(IllegalArgument("Must map all 128 notes to samples."))
    else
      Success(SampleMap(samples, description))
  }

  /** The map used before any samples are loaded. */
  function Empty(): (m: SampleMap)
    ensures m.samples == map[] && m.description.filesByNote == []
    ensures m.Valid()
  {
    NewSampleMap(map[], EmptyDescription()).value
  }

  /** The entry for `note`, falling back to the silent entry. */
  function SampleForNote(m: SampleMap, note: int): (e: Entry)
    ensures note in m.samples ==> e == m.samples[note]
    ensures note !in m.samples ==> e == EmptyEntry()
  {
    if note in m.samples then m.samples[note] else EmptyEntry()
  }

  /** Every entry plays forward. */
  predicate RatesPositive(m: SampleMap)
  {
    forall n :: n in m.samples ==> m.samples[n].playbackRate > 0.0
  }

  /** Every lookup, present or not, yields a forward-playing entry with at least one frame. */
  lemma LookupAlwaysPlayable(m: SampleMap, note: int)
    requires RatesPositive(m)
    ensures SampleForNote(m, note).playbackRate > 0.0
    ensures SampleForNote(m, note).sample.Frames() >= 1
  {
  }

  /** On the empty map every note falls back to the silent entry. */
  lemma EmptyMapIsSilent(note: int)
    ensures SampleForNote(Empty(), note) == EmptyEntry()
  {
  }

  /** The map giving `e` to every key in `keys`. */
  function Uniform(keys: set<int>, e: Entry): (m: map<int, Entry>)
    ensures m.Keys == keys && |m| == |keys|
  {
    map n | n in keys :: e
  }

  /** The constructor accepts any 128 entries, even ones keyed by no note in 0..127. */
  lemma ConstructorCountsOnly(e: Entry, d: Description, lo: int)
    requires lo >= NoteCount
    ensures NewSampleMap(Uniform(Range(lo, lo + NoteCount), e), d).Success?
    ensures forall n :: n in Range(0, NoteCount) ==>
      n !in NewSampleMap(Uniform(Range(lo, lo + NoteCount), e), d).value.samples
  {
    RangeSize(lo, lo + NoteCount);
  }

  /** The constructor rejects a map with fewer than 128 entries. */
  lemma ConstructorRejectsPartialMap(e: Entry, d: Description, count: int)
    requires 0 < count < NoteCount
    ensures NewSampleMap(Uniform(Range(0, count), e), d).Failure?
  {
    RangeSize(0, count);
  }
}
