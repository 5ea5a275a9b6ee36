/** Building a dense 128-note sample map from a sparse description
    (`SampleMapDescription.load`): every described note plays its own sample
    at rate 1.0 and every other note borrows a neighbour's sample, pitched by
    one semitone ratio per step of distance. */
module MapBuilder {
  import opened Prelude
  import opened Notes
  import opened Samples
  import opened SampleMaps

  /** The decoded buffers keyed by note, in ascending note order. */
  type Buffers = seq<(Int32, SampleBuffer)>

  predicate Sorted(b: Buffers)
  {
    forall i, j :: 0 <= i < j < |b| ==> b[i].0 < b[j].0
  }

  /** Whether `note` has a buffer of its own (`sampleBuffersByNote.get(note) != null`). */
  predicate Described(b: Buffers, note: int)
  {
    exists j :: 0 <= j < |b| && b[j].0 == note
  }

  /** Whether every described note is a MIDI note. */
  predicate AllInRange(b: Buffers)
  {
    forall j :: 0 <= j < |b| ==> 0 <= b[j].0 < NoteCount
  }

  /** Decoding every file of the description; `decode` stands for reading the
      file and converting it to the output sample rate. */
  function DecodeAll(files: seq<(Int32, Path)>, decode: Path -> SampleBuffer): (b: Buffers)
    ensures |b| == |files|
    ensures forall j :: 0 <= j < |b| ==> b[j].0 == files[j].0 && b[j].1 == decode(files[j].1)
  {
    seq(|files|, j requires 0 <= j < |files| => (files[j].0, decode(files[j].1)))
  }

  /** The downward walk from `note`: starting at `note - 1` (in Java `int`
      arithmetic), each undescribed note gets `s` at a rate one semitone lower
      than the previous; the walk stops at a described note or below 0. */
  function WalkDown(b: Buffers, s: SampleBuffer, acc: map<int, Entry>, note: int, rate: real)
    : (r: map<int, Entry>)
    ensures acc.Keys <= r.Keys
    decreases note
  {
    if note < 0 || Described(b, note) then acc
    else
      var rate' := rate * OneSemitoneDown;
      WalkDown(b, s, acc[note := Entry(s, rate')], note - 1, rate')
  }

  /** The upward walk: as `WalkDown`, one semitone higher per step, stopping
      at a described note or above 127. */
  function WalkUp(b: Buffers, s: SampleBuffer, acc: map<int, Entry>, note: int, rate: real)
    : (r: map<int, Entry>)
    ensures acc.Keys <= r.Keys
    decreases NoteCount - note
  {
    if note > NoteCount - 1 || Described(b, note) then acc
    else
      var rate' := rate * OneSemitoneUp;
      WalkUp(b, s, acc[note := Entry(s, rate')], note + 1, rate')
  }

  /** One iteration of the main loop: the described note itself, then its
      downward and its upward walk. */
  function Place(b: Buffers, i: nat, acc: map<int, Entry>): (r: map<int, Entry>)
    requires i < |b|
    ensures acc.Keys + {b[i].0} <= r.Keys
  {
    var note: int := b[i].0;
    var s := b[i].1;
    var placed := acc[note := Entry(s, 1.0)];
    var down := WalkDown(b, s, placed, Wrap32(note - 1), 1.0);
    WalkUp(b, s, down, Wrap32(note + 1), 1.0)
  }

  /** The entries after the first `i` iterations of the main loop, which visits
      the described notes in ascending order. */
  function Fill(b: Buffers, i: nat): (r: map<int, Entry>)
    requires i <= |b|
    ensures forall j :: 0 <= j < i ==> b[j].0 in r
  {
    if i == 0 then map[] else Place(b, i - 1, Fill(b, i - 1))
  }

  /** The entries built from the decoded buffers. */
  function Extrapolate(b: Buffers): (r: map<int, Entry>)
    ensures forall j :: 0 <= j < |b| ==> b[j].0 in r
  {
    Fill(b, |b|)
  }

  /** Independent statement of which entry note `n` should end with: the
      nearest described note at or above `n`, pitched down; above the highest
      described note, the highest one, pitched up. */
  function Reference(b: Buffers, n: int): Entry
    requires |b| > 0
  {
    if n <= b[0].0 then Entry(b[0].1, Pow(OneSemitoneDown, b[0].0 - n))
    else if |b| == 1 then Entry(b[0].1, Pow(OneSemitoneUp, n - b[0].0))
    else Reference(b[1..], n)
  }

  // ---------------------------------------------------------------------
  // Facts about the reference.

  /** Below (or at) described note `j` and above its predecessor, the
      reference picks note `j` pitched down by the distance. */
  lemma {:induction false} ReferenceBelow(b: Buffers, j: nat, n: int)
    requires Sorted(b) && j < |b|
    requires j == 0 || b[j - 1].0 < n
    requires n <= b[j].0
    ensures Reference(b, n) == Entry(b[j].1, Pow(OneSemitoneDown, b[j].0 - n))
  {
    if j > 0 {
      assert b[0].0 <= b[j - 1].0 < n;
      ReferenceBelow(b[1..], j - 1, n);
    }
  }

  /** Above the highest described note the reference pitches it up. */
  lemma {:induction false} ReferenceAbove(b: Buffers, n: int)
    requires Sorted(b) && |b| > 0
    requires b[|b| - 1].0 < n
    ensures Reference(b, n) == Entry(b[|b| - 1].1, Pow(OneSemitoneUp, n - b[|b| - 1].0))
  {
    if |b| > 1 {
      assert b[0].0 <= b[|b| - 1].0;
      ReferenceAbove(b[1..], n);
    }
  }

  /** Every reference entry plays forward. */
  lemma {:induction false} ReferencePositive(b: Buffers, n: int)
    requires |b| > 0
    ensures Reference(b, n).playbackRate > 0.0
  {
    SemitoneRatioBounds();
    if n <= b[0].0 {
      PowPositive(OneSemitoneDown, b[0].0 - n);
    } else if |b| == 1 {
      PowPositive(OneSemitoneUp, n - b[0].0);
    } else {
      ReferencePositive(b[1..], n);
    }
  }

  // ---------------------------------------------------------------------
  // The walks.

  /** Scaling the starting rate by one more step is the same as one more power. */
  lemma PowShift(x: real, rate: real, k: nat)
    ensures (rate * x) * Pow(x, k) == rate * Pow(x, k + 1)
  {
  }

  /** The downward walk from `note` adds exactly the keys `[lo, note]`, where
      `lo - 1` is the described note that stops it (or `lo == 0`). */
  lemma {:induction false} WalkDownKeys(
    b: Buffers, s: SampleBuffer, acc: map<int, Entry>, note: int, rate: real, lo: int)
    requires 0 <= lo <= note + 1
    requires lo == 0 || Described(b, lo - 1)
    requires forall x: int :: lo <= x <= note ==> !Described(b, x)
    ensures forall x: int :: x in WalkDown(b, s, acc, note, rate) <==> x in acc || lo <= x <= note
    decreases note
  {
    if note < lo {
      assert note < 0 || Described(b, note);
    } else {
      assert !(note < 0 || Described(b, note));
      var rate' := rate * OneSemitoneDown;
      var acc' := acc[note := Entry(s, rate')];
      assert WalkDown(b, s, acc, note, rate) == WalkDown(b, s, acc', note - 1, rate');
      WalkDownKeys(b, s, acc', note - 1, rate', lo);
    }
  }

  /** The downward walk gives the note `k` steps below its start the rate
      `rate * DOWN^k` and leaves every key outside `[lo, note]` alone. */
  lemma WalkDownValues(
    b: Buffers, s: SampleBuffer, acc: map<int, Entry>, note: int, rate: real, lo: int)
    requires 0 <= lo <= note + 1
    requires lo == 0 || Described(b, lo - 1)
    requires forall x: int :: lo <= x <= note ==> !Described(b, x)
    ensures forall x: int :: lo <= x <= note ==>
      && x in WalkDown(b, s, acc, note, rate)
      && WalkDown(b, s, acc, note, rate)[x] == Entry(s, rate * Pow(OneSemitoneDown, note - x + 1))
    ensures forall x: int :: x in acc && !(lo <= x <= note) ==>
      x in WalkDown(b, s, acc, note, rate) && WalkDown(b, s, acc, note, rate)[x] == acc[x]
  {
    forall x | lo <= x <= note || x in acc {
      WalkDownAt(b, s, acc, note, rate, lo, x);
    }
  }

  /** `WalkDownValues` for one note `x`: the walk's entry for it. */
  lemma {:induction false} WalkDownAt(
    b: Buffers, s: SampleBuffer, acc: map<int, Entry>, note: int, rate: real, lo: int, x: int)
    requires 0 <= lo <= note + 1
    requires lo == 0 || Described(b, lo - 1)
    requires forall y: int :: lo <= y <= note ==> !Described(b, y)
    requires lo <= x <= note || x in acc
    ensures x in WalkDown(b, s, acc, note, rate)
    ensures WalkDown(b, s, acc, note, rate)[x] ==
      if lo <= x <= note then Entry(s, rate * Pow(OneSemitoneDown, note - x + 1)) else acc[x]
    decreases note
  {
    if note < lo {
      assert note < 0 || Described(b, note);
    } else {
      assert !(note < 0 || Described(b, note));
      var rate' := rate * OneSemitoneDown;
      var acc' := acc[note := Entry(s, rate')];
      WalkDownAt(b, s, acc', note - 1, rate', lo, x);
      if lo <= x < note {
        PowShift(OneSemitoneDown, rate, note - x);
      } else if x == note {
        assert Pow(OneSemitoneDown, 1) == OneSemitoneDown;
      }
    }
  }

  /** The upward walk from `note` adds exactly the keys `[note, hi]`, where
      `hi + 1` is the described note that stops it (or `hi == 127`). */
  lemma {:induction false} WalkUpKeys(
    b: Buffers, s: SampleBuffer, acc: map<int, Entry>, note: int, rate: real, hi: int)
    requires note - 1 <= hi <= NoteCount - 1
    requires hi == NoteCount - 1 || Described(b, hi + 1)
    requires forall x: int :: note <= x <= hi ==> !Described(b, x)
    ensures forall x: int :: x in WalkUp(b, s, acc, note, rate) <==> x in acc || note <= x <= hi
    decreases NoteCount - note
  {
    if note > hi {
      assert note > NoteCount - 1 || Described(b, note);
    } else {
      assert !(note > NoteCount - 1 || Described(b, note));
      var rate' := rate * OneSemitoneUp;
      var acc' := acc[note := Entry(s, rate')];
      assert WalkUp(b, s, acc, note, rate) == WalkUp(b, s, acc', note + 1, rate');
      WalkUpKeys(b, s, acc', note + 1, rate', hi);
    }
  }

  /** The upward walk gives the note `k` steps above its start the rate
      `rate * UP^k` and leaves every key outside `[note, hi]` alone. */
  lemma WalkUpValues(
    b: Buffers, s: SampleBuffer, acc: map<int, Entry>, note: int, rate: real, hi: int)
    requires note - 1 <= hi <= NoteCount - 1
    requires hi == NoteCount - 1 || Described(b, hi + 1)
    requires forall x: int :: note <= x <= hi ==> !Described(b, x)
    ensures forall x: int :: note <= x <= hi ==>
      && x in WalkUp(b, s, acc, note, rate)
      && WalkUp(b, s, acc, note, rate)[x] == Entry(s, rate * Pow(OneSemitoneUp, x - note + 1))
    ensures forall x: int :: x in acc && !(note <= x <= hi) ==>
      x in WalkUp(b, s, acc, note, rate) && WalkUp(b, s, acc, note, rate)[x] == acc[x]
  {
    forall x | note <= x <= hi || x in acc {
      WalkUpAt(b, s, acc, note, rate, hi, x);
    }
  }

  /** `WalkUpValues` for one note `x`: the walk's entry for it. */
  lemma {:induction false} WalkUpAt(
    b: Buffers, s: SampleBuffer, acc: map<int, Entry>, note: int, rate: real, hi: int, x: int)
    requires note - 1 <= hi <= NoteCount - 1
    requires hi == NoteCount - 1 || Described(b, hi + 1)
    requires forall y: int :: note <= y <= hi ==> !Described(b, y)
    requires note <= x <= hi || x in acc
    ensures x in WalkUp(b, s, acc, note, rate)
    ensures WalkUp(b, s, acc, note, rate)[x] ==
      if note <= x <= hi then Entry(s, rate * Pow(OneSemitoneUp, x - note + 1)) else acc[x]
    decreases NoteCount - note
  {
    if note > hi {
      assert note > NoteCount - 1 || Described(b, note);
    } else {
      assert !(note > NoteCount - 1 || Described(b, note));
      var rate' := rate * OneSemitoneUp;
      var acc' := acc[note := Entry(s, rate')];
      WalkUpAt(b, s, acc', note + 1, rate', hi, x);
      if note < x <= hi {
        PowShift(OneSemitoneUp, rate, x - note);
      } else if x == note {
        assert Pow(OneSemitoneUp, 1) == OneSemitoneUp;
      }
    }
  }

  lemma {:induction false} FillKeepsKeys(b: Buffers, i: nat, k: nat)
    requires i <= k <= |b|
    ensures Fill(b, i).Keys <= Fill(b, k).Keys
    decreases k - i
  {
    if i < k {
      FillKeepsKeys(b, i + 1, k);
    }
  }

  // ---------------------------------------------------------------------
  // The main loop when every described note is a MIDI note.

  /** The note just above the region settled after `i` iterations. */
  function Next(b: Buffers, i: nat): int
    requires i <= |b|
  {
    if i < |b| then b[i].0 else NoteCount
  }

  /** The state after `i` iterations: the keys are exactly `[0, Next(i))`;
      notes up to the last processed described note hold their final
      (reference) entry; notes above it hold its upward walk. */
  ghost predicate FillInvariant(b: Buffers, i: nat, acc: map<int, Entry>)
    requires 0 < i <= |b|
  {
    var h := b[i - 1].0;
    && (forall x: int :: x in acc <==> 0 <= x < Next(b, i))
    && (forall x: int :: 0 <= x <= h ==> x in acc && acc[x] == Reference(b, x))
    && (forall x: int :: h < x < Next(b, i) ==>
          x in acc && acc[x] == Entry(b[i - 1].1, Pow(OneSemitoneUp, x - h)))
  }

  /** Strictly between consecutive described notes (or below the first, or
      above the last) no note is described. */
  lemma NotDescribedBetween(b: Buffers, i: int, x: int)
    requires Sorted(b) && -1 <= i < |b|
    requires i < 0 || b[i].0 < x
    requires i + 1 == |b| || x < b[i + 1].0
    ensures !Described(b, x)
  {
  }

  /** The downward walk of iteration `i`, started at `from == b[i].0 - 1`,
      covers exactly the gap above the previous described note (or everything
      below the first) with the reference entries. */
  lemma PlaceDown(b: Buffers, i: nat, placed: map<int, Entry>, from: int, lo: int)
    requires Sorted(b) && AllInRange(b) && i < |b|
    requires from == b[i].0 - 1
    requires lo == if i == 0 then 0 else b[i - 1].0 + 1
    ensures forall x: int :: x in WalkDown(b, b[i].1, placed, from, 1.0) <==> x in placed || lo <= x <= from
    ensures forall x: int :: lo <= x <= from ==>
      x in WalkDown(b, b[i].1, placed, from, 1.0) &&
      WalkDown(b, b[i].1, placed, from, 1.0)[x] == Reference(b, x)
    ensures forall x: int :: x in placed && !(lo <= x <= from) ==>
      x in WalkDown(b, b[i].1, placed, from, 1.0) &&
      WalkDown(b, b[i].1, placed, from, 1.0)[x] == placed[x]
  {
    forall x | lo <= x <= from ensures !Described(b, x) {
      NotDescribedBetween(b, i - 1, x);
    }
    if i > 0 {
      assert Described(b, lo - 1) by { assert b[i - 1].0 == lo - 1; }
    }
    WalkDownKeys(b, b[i].1, placed, from, 1.0, lo);
    WalkDownValues(b, b[i].1, placed, from, 1.0, lo);
    forall x | lo <= x <= from
      ensures WalkDown(b, b[i].1, placed, from, 1.0)[x] == Reference(b, x)
    {
      ReferenceBelow(b, i, x);
      assert 1.0 * Pow(OneSemitoneDown, from - x + 1) == Pow(OneSemitoneDown, b[i].0 - x);
    }
  }

  /** The upward walk of iteration `i`, started at `from == b[i].0 + 1`,
      covers exactly the gap below the next described note (or everything
      above the last), pitching up. */
  lemma PlaceUp(b: Buffers, i: nat, down: map<int, Entry>, from: int, hi: int)
    requires Sorted(b) && AllInRange(b) && i < |b|
    requires from == b[i].0 + 1
    requires hi == Next(b, i + 1) - 1
    ensures forall x: int :: x in WalkUp(b, b[i].1, down, from, 1.0) <==> x in down || from <= x <= hi
    ensures forall x: int :: from <= x <= hi ==>
      x in WalkUp(b, b[i].1, down, from, 1.0) &&
      WalkUp(b, b[i].1, down, from, 1.0)[x] == Entry(b[i].1, Pow(OneSemitoneUp, x - b[i].0))
    ensures forall x: int :: x in down && !(from <= x <= hi) ==>
      x in WalkUp(b, b[i].1, down, from, 1.0) &&
      WalkUp(b, b[i].1, down, from, 1.0)[x] == down[x]
  {
    forall x | from <= x <= hi ensures !Described(b, x) {
      NotDescribedBetween(b, i, x);
    }
    if i + 1 < |b| {
      assert Described(b, hi + 1) by { assert b[i + 1].0 == hi + 1; }
    }
    WalkUpKeys(b, b[i].1, down, from, 1.0, hi);
    WalkUpValues(b, b[i].1, down, from, 1.0, hi);
    forall x | from <= x <= hi
      ensures WalkUp(b, b[i].1, down, from, 1.0)[x] == Entry(b[i].1, Pow(OneSemitoneUp, x - b[i].0))
    {
      assert 1.0 * Pow(OneSemitoneUp, x - from + 1) == Pow(OneSemitoneUp, x - b[i].0);
    }
  }

  /** For a MIDI note the walks start right next to it: no wrap-around. */
  lemma PlaceInRange(b: Buffers, i: nat, acc: map<int, Entry>)
    requires i < |b| && 0 <= b[i].0 < NoteCount
    ensures Place(b, i, acc)
         == WalkUp(b, b[i].1,
                   WalkDown(b, b[i].1, acc[b[i].0 := Entry(b[i].1, 1.0)], b[i].0 - 1, 1.0),
                   b[i].0 + 1, 1.0)
  {
  }

  /** The keys after iteration `i`: everything below the next described note. */
  lemma PlaceStepKeys(b: Buffers, i: nat, acc: map<int, Entry>)
    requires Sorted(b) && AllInRange(b) && i < |b|
    requires forall x: int :: x in acc <==> i > 0 && 0 <= x < b[i].0
    ensures forall x: int :: x in Place(b, i, acc) <==> 0 <= x < Next(b, i + 1)
  {
    var note: int := b[i].0;
    var s := b[i].1;
    var lo := if i == 0 then 0 else b[i - 1].0 + 1;
    var hi := Next(b, i + 1) - 1;
    var placed := acc[note := Entry(s, 1.0)];
    PlaceInRange(b, i, acc);
    PlaceDown(b, i, placed, note - 1, lo);
    var down := WalkDown(b, s, placed, note - 1, 1.0);
    PlaceUp(b, i, down, note + 1, hi);
    var r := WalkUp(b, s, down, note + 1, 1.0);
    assert r == Place(b, i, acc);
    assert 0 <= lo <= note <= hi by {
      if i + 1 < |b| {
        assert b[i].0 < b[i + 1].0;
      }
      if i > 0 {
        assert b[i - 1].0 < b[i].0;
      }
    }
    forall x ensures x in r <==> 0 <= x <= hi {
      assert x in r <==> x in down || note + 1 <= x <= hi;
      assert x in down <==> x in placed || lo <= x <= note - 1;
      assert x in placed <==> x in acc || x == note;
    }
  }

  /** One iteration of the main loop establishes or preserves the invariant. */
  lemma PlaceStep(b: Buffers, i: nat, acc: map<int, Entry>)
    requires Sorted(b) && AllInRange(b) && i < |b|
    requires i == 0 ==> acc == map[]
    requires i > 0 ==> FillInvariant(b, i, acc)
    ensures FillInvariant(b, i + 1, Place(b, i, acc))
  {
    var note: int := b[i].0;
    var s := b[i].1;
    var lo := if i == 0 then 0 else b[i - 1].0 + 1;
    var hi := Next(b, i + 1) - 1;
    var placed := acc[note := Entry(s, 1.0)];
    PlaceStepKeys(b, i, acc);
    PlaceInRange(b, i, acc);
    PlaceDown(b, i, placed, note - 1, lo);
    var down := WalkDown(b, s, placed, note - 1, 1.0);
    PlaceUp(b, i, down, note + 1, hi);
    var r := WalkUp(b, s, down, note + 1, 1.0);
    forall x | 0 <= x <= note ensures x in r && r[x] == Reference(b, x) {
      if x < lo {
        assert r[x] == down[x] == placed[x] == acc[x];
      } else if x == note {
        assert r[x] == down[x] == placed[x];
        ReferenceBelow(b, i, x);
      } else {
        assert r[x] == down[x];
      }
    }
  }

  lemma {:induction false} FillEstablishes(b: Buffers, i: nat)
    requires Sorted(b) && AllInRange(b) && 0 < i <= |b|
    ensures FillInvariant(b, i, Fill(b, i))
  {
    if i == 1 {
      PlaceStep(b, 0, map[]);
    } else {
      FillEstablishes(b, i - 1);
      PlaceStep(b, i - 1, Fill(b, i - 1));
    }
  }

  /** With every described note in 0..127, the built map has exactly the
      keys 0..127 and each entry is the reference one. */
  lemma ExtrapolateMatchesReference(b: Buffers)
    requires Sorted(b) && AllInRange(b) && |b| > 0
    ensures forall n: int :: n in Extrapolate(b) <==> 0 <= n < NoteCount
    ensures forall n: int :: 0 <= n < NoteCount ==> Extrapolate(b)[n] == Reference(b, n)
    ensures |Extrapolate(b)| == NoteCount
  {
    ExtrapolateKeys(b);
    var r := Extrapolate(b);
    var h := b[|b| - 1];
    forall n | h.0 < n < NoteCount ensures r[n] == Reference(b, n) {
      ReferenceAbove(b, n);
    }
  }

  /** The key set half of the above: exactly the MIDI notes. */
  lemma ExtrapolateKeys(b: Buffers)
    requires Sorted(b) && AllInRange(b) && |b| > 0
    ensures FillInvariant(b, |b|, Extrapolate(b))
    ensures Extrapolate(b).Keys == Range(0, NoteCount)
    ensures |Extrapolate(b)| == NoteCount
  {
    FillEstablishes(b, |b|);
    assert Extrapolate(b).Keys == Range(0, NoteCount);
    RangeSize(0, NoteCount);
  }

  // ---------------------------------------------------------------------
  // Coverage for arbitrary `int` notes.

  /** Whatever the described notes, every MIDI note and every described note
      ends up with an entry. */
  lemma ExtrapolateCovers(b: Buffers)
    requires Sorted(b) && |b| > 0
    ensures forall n: int :: 0 <= n < NoteCount ==> n in Extrapolate(b)
    ensures forall j :: 0 <= j < |b| ==> b[j].0 in Extrapolate(b)
  {
    forall n | 0 <= n < NoteCount ensures n in Extrapolate(b) {
      if b[|b| - 1].0 < n {
        CoverAbove(b, n);
      } else {
        var j := FirstAtOrAbove(b, n);
        CoverBelow(b, j, n);
      }
    }
  }

  /** The index of the lowest described note at or above `n`. */
  function FirstAtOrAbove(b: Buffers, n: int): (j: nat)
    requires Sorted(b) && |b| > 0 && n <= b[|b| - 1].0
    ensures j < |b| && n <= b[j].0 && (j == 0 || b[j - 1].0 < n)
    decreases |b|
  {
    if n <= b[0].0 then 0
    else
      assert forall k :: 0 <= k < |b| - 1 ==> b[1..][k] == b[k + 1];
      1 + FirstAtOrAbove(b[1..], n)
  }

  /** A note at or below described note `j` and above its predecessor is
      put in by iteration `j`: it is the note itself or lies on its downward walk. */
  lemma PlaceCovers(b: Buffers, j: nat, acc: map<int, Entry>, n: int)
    requires Sorted(b) && j < |b|
    requires 0 <= n <= b[j].0 && (j == 0 || b[j - 1].0 < n)
    ensures n in Place(b, j, acc)
  {
    var note: int := b[j].0;
    var s := b[j].1;
    var placed := acc[note := Entry(s, 1.0)];
    if n < note {
      assert Wrap32(note - 1) == note - 1;
      var lo := if j == 0 || b[j - 1].0 < 0 then 0 else b[j - 1].0 + 1;
      forall x | lo <= x <= note - 1 ensures !Described(b, x) {
        NotDescribedBetween(b, j - 1, x);
      }
      if lo > 0 {
        assert Described(b, lo - 1) by { assert b[j - 1].0 == lo - 1; }
      }
      WalkDownKeys(b, s, placed, note - 1, 1.0, lo);
    }
  }

  lemma CoverBelow(b: Buffers, j: nat, n: int)
    requires Sorted(b) && j < |b|
    requires 0 <= n <= b[j].0 && (j == 0 || b[j - 1].0 < n)
    ensures n in Extrapolate(b)
  {
    PlaceCovers(b, j, Fill(b, j), n);
    FillKeepsKeys(b, j + 1, |b|);
  }

  /** A MIDI note above every described note is covered by the last
      iteration's upward walk. */
  lemma CoverAbove(b: Buffers, n: int)
    requires Sorted(b) && |b| > 0
    requires b[|b| - 1].0 < n < NoteCount
    ensures n in Extrapolate(b)
  {
    var j := |b| - 1;
    var note: int := b[j].0;
    var s := b[j].1;
    var placed := Fill(b, j)[note := Entry(s, 1.0)];
    var down := WalkDown(b, s, placed, Wrap32(note - 1), 1.0);
    assert Wrap32(note + 1) == note + 1;
    forall x | note + 1 <= x <= NoteCount - 1 ensures !Described(b, x) {
    }
    WalkUpValues(b, s, down, note + 1, 1.0, NoteCount - 1);
  }

  // ---------------------------------------------------------------------
  // Loading a description.

  /** Whether every note of the description is a MIDI note. */
  predicate MidiNotes(d: Description)
  {
    forall j :: 0 <= j < |d.filesByNote| ==> 0 <= d.filesByNote[j].0 < NoteCount
  }

  lemma DecodeAllSorted(d: Description, decode: Path -> SampleBuffer)
    requires d.Sorted()
    ensures Sorted(DecodeAll(d.filesByNote, decode))
    ensures MidiNotes(d) <==> AllInRange(DecodeAll(d.filesByNote, decode))
  {
  }

  /** `SampleMapDescription.load`: the empty description gives the empty map;
      otherwise the extrapolated entries go through the size-checking
      constructor, which accepts them exactly when every described note is a
      MIDI note. */
  function Load(d: Description, decode: Path -> SampleBuffer): (r: Result<SampleMap, MapError>)
    requires d.Sorted()
    ensures d.filesByNote == [] ==> r == Success(Empty())
    ensures d.filesByNote != [] ==> (r.Success? <==> MidiNotes(d))
    ensures r.Success? ==> r.value.description == d
    ensures r.Success? ==> r.value.Valid() && RatesPositive(r.value)
  {
    if d.filesByNote == [] then Success(Empty())
    else
      var b := DecodeAll(d.filesByNote, decode);
      DecodeAllSorted(d, decode);
      LoadOutcome(b);
      NewSampleMap(Extrapolate(b), d)
  }

  /** The constructor accepts the built entries exactly when every described
      note is a MIDI note; a note outside 0..127 adds an entry beyond the 128
      MIDI notes, which are always covered. */
  lemma LoadOutcome(b: Buffers)
    requires Sorted(b) && |b| > 0
    ensures |Extrapolate(b)| == NoteCount <==> AllInRange(b)
    ensures !AllInRange(b) ==> |Extrapolate(b)| > NoteCount
    ensures |Extrapolate(b)| != 0
    ensures AllInRange(b) ==>
      forall n: int :: n in Extrapolate(b) ==> Extrapolate(b)[n].playbackRate > 0.0
  {
    ExtrapolateCovers(b);
    assert 0 in Extrapolate(b);
    if AllInRange(b) {
      ExtrapolateMatchesReference(b);
      forall n: int | n in Extrapolate(b) ensures Extrapolate(b)[n].playbackRate > 0.0 {
        ReferencePositive(b, n);
      }
    } else {
      var j :| 0 <= j < |b| && !(0 <= b[j].0 < NoteCount);
      assert Range(0, NoteCount) <= Extrapolate(b).Keys;
      RangePlusOutsiderIsLarger(Extrapolate(b).Keys, 0, NoteCount, b[j].0);
    }
  }

  /** The entries a successful load ends with, stated on the description. */
  lemma LoadedEntries(d: Description, decode: Path -> SampleBuffer)
    requires d.Sorted() && MidiNotes(d) && d.filesByNote != []
    ensures Load(d, decode).Success?
    ensures forall n: int :: n in Load(d, decode).value.samples <==> 0 <= n < NoteCount
    ensures forall n: int :: 0 <= n < NoteCount ==>
      Load(d, decode).value.samples[n] == Reference(DecodeAll(d.filesByNote, decode), n)
  {
    DecodeAllSorted(d, decode);
    ExtrapolateMatchesReference(DecodeAll(d.filesByNote, decode));
  }

  /** Every described note plays its own file at rate 1.0: no walk overwrites it. */
  lemma LoadDescribedNote(d: Description, decode: Path -> SampleBuffer, j: nat)
    requires d.Sorted() && MidiNotes(d) && j < |d.filesByNote|
    ensures Load(d, decode).Success?
    ensures SampleForNote(Load(d, decode).value, d.filesByNote[j].0)
         == Entry(decode(d.filesByNote[j].1), 1.0)
  {
    LoadedEntries(d, decode);
    var b := DecodeAll(d.filesByNote, decode);
    ReferenceBelow(b, j, b[j].0);
  }

  /** A note below described note `j` and above its predecessor (or below the
      lowest described note, for `j == 0`) plays file `j` pitched down one
      semitone per step: in a gap the higher neighbour wins. */
  lemma LoadBelowDescribed(d: Description, decode: Path -> SampleBuffer, j: nat, n: int)
    requires d.Sorted() && MidiNotes(d) && j < |d.filesByNote|
    requires 0 <= n < d.filesByNote[j].0
    requires j == 0 || d.filesByNote[j - 1].0 < n
    ensures Load(d, decode).Success?
    ensures SampleForNote(Load(d, decode).value, n)
         == Entry(decode(d.filesByNote[j].1), Pow(OneSemitoneDown, d.filesByNote[j].0 - n))
  {
    LoadedEntries(d, decode);
    ReferenceBelow(DecodeAll(d.filesByNote, decode), j, n);
  }

  /** A MIDI note above the highest described note plays that file pitched up
      one semitone per step. */
  lemma LoadAboveHighest(d: Description, decode: Path -> SampleBuffer, n: int)
    requires d.Sorted() && MidiNotes(d) && d.filesByNote != []
    requires d.filesByNote[|d.filesByNote| - 1].0 < n < NoteCount
    ensures Load(d, decode).Success?
    ensures SampleForNote(Load(d, decode).value, n)
         == Entry(decode(d.filesByNote[|d.filesByNote| - 1].1),
                  Pow(OneSemitoneUp, n - d.filesByNote[|d.filesByNote| - 1].0))
  {
    LoadedEntries(d, decode);
    ReferenceAbove(DecodeAll(d.filesByNote, decode), n);
  }

  /** Outside 0..127 a successfully loaded map falls back to the silent entry. */
  lemma LoadOutsideMidiIsSilent(d: Description, decode: Path -> SampleBuffer, n: int)
    requires d.Sorted() && MidiNotes(d)
    requires n < 0 || n >= NoteCount
    ensures Load(d, decode).Success?
    ensures SampleForNote(Load(d, decode).value, n) == EmptyEntry()
  {
    if d.filesByNote != [] {
      LoadedEntries(d, decode);
    }
  }
}
