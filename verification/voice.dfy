/** One playing sample (`SamplerMono.SampleState`): a fractional read
    position advanced by the entry's playback rate scaled by the pitch bend,
    and a latch that silences the voice once it runs off the end. */
module Voices {
  import opened Prelude
  import opened Samples

  /** `PitchBend.pitchBendToRate(bend, 24)`: the rate scale for a bend value.
      Its formula is not part of this model; only its positivity is. */
  type BendLaw = f: real -> real | forall x :: f(x) > 0.0 witness x => 1.0

  datatype Voice = Voice(entry: Entry, done: bool, positionReal: real, position: int)
  {
    /** The reachable states: a forward rate, a non-negative phase whose cast
        is the integer position, and `done` exactly when that position is past
        the last frame. Hence a voice that is not done reads within the buffer. */
    predicate Valid()
    {
      && entry.playbackRate > 0.0
      && positionReal >= 0.0
      && position == DoubleToInt(positionReal)
      && (done <==> position >= entry.sample.Frames())
    }
  }

  /** Java's `(int)` cast of a `double`: truncation toward zero, saturating at
      the bounds of `int`. */
  function DoubleToInt(x: real): (r: Int32)
    ensures 0.0 <= x ==> 0 <= r && r as real <= x
    ensures 0.0 <= x < INT32_MAX as real ==> x < r as real + 1.0
    ensures INT32_MAX as real <= x ==> r == INT32_MAX
    ensures x <= 0.0 ==> r <= 0 && x <= r as real
    ensures INT32_MIN as real < x <= 0.0 ==> r as real - 1.0 < x
    ensures x <= INT32_MIN as real ==> r == INT32_MIN
  {
    if x >= INT32_MAX as real then INT32_MAX
    else if x <= INT32_MIN as real then INT32_MIN
    else if x >= 0.0 then x.Floor
    else -((-x).Floor)
  }

  /** A whole number within range casts to itself. */
  lemma DoubleToIntOfWhole(n: nat)
    requires n < INT32_MAX
    ensures DoubleToInt(n as real) == n
  {
  }

  /** The constructor: position 0, not done. */
  function Start(entry: Entry): (v: Voice)
    ensures v.entry == entry && !v.done && v.position == 0 && v.positionReal == 0.0
    ensures entry.playbackRate > 0.0 ==> v.Valid()
  {
    Voice(entry, false, 0.0, 0)
  }

  /** `frameGetExact(position, frame)`: the channels of frame `position` are
      copied into the two-slot frame array; a mono buffer leaves the second
      slot as it was. */
  function Read(s: SampleBuffer, position: nat, frame: seq<real>): (r: seq<real>)
    requires position < s.Frames() && |frame| == 2
    ensures |r| == 2 && r[0] == s.data[position][0]
    ensures s.channels == 2 ==> r == s.data[position]
    ensures s.channels == 1 ==> r[1] == frame[1]
  {
    if s.channels == 2 then s.data[position] else [s.data[position][0], frame[1]]
  }

  /** `evaluate`: a finished voice writes a silent frame and stays as it is;
      otherwise it reads the frame at its position, then advances the phase
      by the playback rate times the bend's rate scale, casts it to the new
      position, and latches `done` once that position is past the end. */
  function Evaluate(v: Voice, frame: seq<real>, bend: real, law: BendLaw): (r: (seq<real>, Voice))
    requires |frame| == 2
    requires !v.done ==> 0 <= v.position < v.entry.sample.Frames()
    ensures |r.0| == 2
    ensures v.done ==> r.0 == [0.0, 0.0] && r.1 == v
    ensures !v.done ==> r.0 == Read(v.entry.sample, v.position, frame)
    ensures r.1.entry == v.entry
    ensures !v.done ==>
      && r.1.positionReal == v.positionReal + v.entry.playbackRate * law(bend)
      && r.1.position == DoubleToInt(r.1.positionReal)
      && (r.1.done <==> r.1.position >= v.entry.sample.Frames())
  {
    if v.done then ([0.0, 0.0], v)
    else
      var out := Read(v.entry.sample, v.position, frame);
      var positionReal' := v.positionReal + v.entry.playbackRate * law(bend);
      var position' := DoubleToInt(positionReal');
      (out, Voice(v.entry, position' >= v.entry.sample.Frames(), positionReal', position'))
  }

  /** Evaluation keeps a voice in its reachable states, so every read it
      performs is within the buffer; the phase only moves forward. */
  lemma EvaluateKeepsValid(v: Voice, frame: seq<real>, bend: real, law: BendLaw)
    requires |frame| == 2 && v.Valid()
    ensures Evaluate(v, frame, bend, law).1.Valid()
    ensures !v.done ==> Evaluate(v, frame, bend, law).1.positionReal > v.positionReal
    ensures !v.done ==> Evaluate(v, frame, bend, law).1.position >= v.position
  {
    if !v.done {
      assert v.entry.playbackRate * law(bend) > 0.0;
    }
  }

  /** `k` successive evaluations under a constant bend: the frames written and
      the voice after them. */
  function Play(v: Voice, frame: seq<real>, k: nat, bend: real, law: BendLaw): (r: (seq<seq<real>>, Voice))
    requires |frame| == 2 && v.Valid()
    ensures |r.0| == k && r.1.Valid() && r.1.entry == v.entry
    ensures forall i :: 0 <= i < k ==> |r.0[i]| == 2
    decreases k
  {
    if k == 0 then ([], v)
    else
      var (out, v') := Play(v, frame, k - 1, bend, law);
      var last := if k == 1 then frame else out[k - 2];
      EvaluateKeepsValid(v', last, bend, law);
      var (f, v'') := Evaluate(v', last, bend, law);
      (out + [f], v'')
  }

  /** No evaluations write nothing and leave the voice as it is. */
  lemma PlayNone(v: Voice, frame: seq<real>, bend: real, law: BendLaw)
    requires |frame| == 2 && v.Valid()
    ensures Play(v, frame, 0, bend, law).0 == [] && Play(v, frame, 0, bend, law).1 == v
  {
  }

  /** The last of `k` evaluations reads from the frame the one before it wrote
      (or from the initial frame), and acts on the voice it left. */
  lemma PlayLast(v: Voice, frame: seq<real>, k: nat, bend: real, law: BendLaw)
    requires |frame| == 2 && v.Valid() && k > 0
    ensures var before := Play(v, frame, k - 1, bend, law);
      var last := if k == 1 then frame else before.0[k - 2];
      && Play(v, frame, k, bend, law).0 == before.0 + [Evaluate(before.1, last, bend, law).0]
      && Play(v, frame, k, bend, law).1 == Evaluate(before.1, last, bend, law).1
  {
  }

  /** Once done, a voice writes silence for ever and never changes. */
  lemma {:induction false} DoneIsAbsorbing(v: Voice, frame: seq<real>, k: nat, bend: real, law: BendLaw)
    requires |frame| == 2 && v.Valid() && v.done
    ensures Play(v, frame, k, bend, law).1 == v
    ensures forall i :: 0 <= i < k ==> Play(v, frame, k, bend, law).0[i] == [0.0, 0.0]
  {
    if k > 0 {
      DoneIsAbsorbing(v, frame, k - 1, bend, law);
      var (out, v') := Play(v, frame, k - 1, bend, law);
      var last := if k == 1 then frame else out[k - 2];
      assert Play(v, frame, k, bend, law) == (out + [[0.0, 0.0]], v);
    }
  }

  /** One evaluation at unit rate and unit rate scale reads frame `n` and
      moves on to frame `n + 1`. */
  lemma UnitStep(v: Voice, frame: seq<real>, bend: real, law: BendLaw, n: nat)
    requires |frame| == 2 && !v.done && n < v.entry.sample.Frames()
    requires v.entry.playbackRate == 1.0 && law(bend) == 1.0
    requires v.positionReal == n as real && v.position == n && n + 1 < INT32_MAX
    ensures Evaluate(v, frame, bend, law).0[0] == v.entry.sample.data[n][0]
    ensures v.entry.sample.channels == 2 ==> Evaluate(v, frame, bend, law).0 == v.entry.sample.data[n]
    ensures Evaluate(v, frame, bend, law).1.positionReal == (n + 1) as real
    ensures Evaluate(v, frame, bend, law).1.position == n + 1
    ensures Evaluate(v, frame, bend, law).1.done <==> n + 1 >= v.entry.sample.Frames()
  {
  }

  /** At unit rate and unit rate scale a fresh voice is at position `k` after
      `k` evaluations, and is done exactly once that is past the last frame. */
  lemma {:induction false} UnitRatePosition(
    e: Entry, frame: seq<real>, k: nat, bend: real, law: BendLaw)
    requires |frame| == 2 && e.playbackRate == 1.0 && law(bend) == 1.0
    requires k <= e.sample.Frames() && k < INT32_MAX
    ensures Play(Start(e), frame, k, bend, law).1.position == k
    ensures Play(Start(e), frame, k, bend, law).1.positionReal == k as real
    ensures Play(Start(e), frame, k, bend, law).1.done <==> k == e.sample.Frames()
  {
    if k > 0 {
      UnitRatePosition(e, frame, k - 1, bend, law);
      var prev := Play(Start(e), frame, k - 1, bend, law);
      var last := if k == 1 then frame else prev.0[k - 2];
      DoubleToIntOfWhole(k - 1);
      UnitStep(prev.1, last, bend, law, k - 1);
      PlayLast(Start(e), frame, k, bend, law);
    }
  }

  /** ... so it reads frames 0, 1, 2, ... in turn. */
  lemma {:induction false} UnitRateReadsInOrder(
    e: Entry, frame: seq<real>, k: nat, bend: real, law: BendLaw)
    requires |frame| == 2 && e.playbackRate == 1.0 && law(bend) == 1.0
    requires k <= e.sample.Frames() && k < INT32_MAX
    ensures forall i :: 0 <= i < k ==> Play(Start(e), frame, k, bend, law).0[i][0] == e.sample.data[i][0]
  {
    if k > 0 {
      UnitRateReadsInOrder(e, frame, k - 1, bend, law);
      UnitRatePosition(e, frame, k - 1, bend, law);
      var prev := Play(Start(e), frame, k - 1, bend, law);
      var last := if k == 1 then frame else prev.0[k - 2];
      DoubleToIntOfWhole(k - 1);
      UnitStep(prev.1, last, bend, law, k - 1);
      PlayLast(Start(e), frame, k, bend, law);
      var out := Play(Start(e), frame, k, bend, law).0;
      forall i | 0 <= i < k ensures out[i][0] == e.sample.data[i][0] {
        if i < k - 1 {
          assert out[i] == prev.0[i];
        }
      }
    }
  }

  /** ... and for a stereo sample each frame written is the whole frame read:
      both channels of frames 0, 1, 2, ... in turn. */
  lemma {:induction false} UnitRateReadsStereo(
    e: Entry, frame: seq<real>, k: nat, bend: real, law: BendLaw)
    requires |frame| == 2 && e.playbackRate == 1.0 && law(bend) == 1.0
    requires k <= e.sample.Frames() && k < INT32_MAX && e.sample.channels == 2
    ensures forall i :: 0 <= i < k ==> Play(Start(e), frame, k, bend, law).0[i] == e.sample.data[i]
  {
    if k > 0 {
      UnitRateReadsStereo(e, frame, k - 1, bend, law);
      UnitRatePosition(e, frame, k - 1, bend, law);
      var prev := Play(Start(e), frame, k - 1, bend, law);
      var last := if k == 1 then frame else prev.0[k - 2];
      DoubleToIntOfWhole(k - 1);
      UnitStep(prev.1, last, bend, law, k - 1);
      PlayLast(Start(e), frame, k, bend, law);
      var out := Play(Start(e), frame, k, bend, law).0;
      forall i | 0 <= i < k ensures out[i] == e.sample.data[i] {
        if i < k - 1 {
          assert out[i] == prev.0[i];
        }
      }
    }
  }
}
