/** The single-voice sampler (`SamplerMono`): per audio block, for each frame
    index it applies the events buffered for that index in arrival order and
    then renders one stereo frame from the playing voice. */
module Sampler {
  import opened Prelude
  import opened Samples
  import opened SampleMaps
  import opened Events
  import opened EventBuffers
  import opened Voices

  datatype Sampler = Sampler(
    events: EventBuffer,
    samples: SampleMap,
    playing: Option<Voice>,
    pitchBend: real,
    frame: seq<real>)
  {
    /** The two-slot frame array, a map whose entries play forward, and a
        playing voice in one of its reachable states. */
    predicate Valid()
    {
      && |frame| == 2
      && RatesPositive(samples)
      && (playing.Some? ==> playing.value.Valid())
    }
  }

  /** The constructor: no events, the empty map, nothing playing. */
  function New(): (s: Sampler)
    ensures s.Valid()
    ensures s.playing.None? && s.samples == Empty()
    ensures forall t :: Held(s.events, t) == []
    ensures s.pitchBend == 0.0 && s.frame == [0.0, 0.0]
  {
    Sampler(EventBuffers.New(), Empty(), None, 0.0, [0.0, 0.0])
  }

  /** `onEvent`: the event is buffered for its frame offset. */
  function OnEvent(s: Sampler, e: Event): (r: Sampler)
    ensures Held(r.events, e.time) == Held(s.events, e.time) + [e]
    ensures forall t :: t != e.time ==> Held(r.events, t) == Held(s.events, t)
    ensures r.samples == s.samples && r.playing == s.playing && r.pitchBend == s.pitchBend
    ensures r.frame == s.frame
    ensures s.Valid() ==> r.Valid()
  {
    s.(events := Add(s.events, e))
  }

  /** The end of `loadSamples`: a map that loaded successfully replaces the
      current one; a failed load leaves the sampler as it was. */
  function LoadSamples(s: Sampler, loaded: Result<SampleMap, MapError>): (r: Sampler)
    requires loaded.Success? ==> RatesPositive(loaded.value)
    ensures loaded.Success? ==> r == s.(samples := loaded.value)
    ensures loaded.Failure? ==> r == s
    ensures s.Valid() ==> r.Valid()
  {
    if loaded.Success? then s.(samples := loaded.value) else s
  }

  /** The reaction to one event inside `onProcess`: a note-on starts a fresh
      voice on the note's entry, a note-off stops whatever is playing (the
      note number is ignored), a pitch bend sets the bend for later frames. */
  function Apply(s: Sampler, e: Event): (r: Sampler)
    ensures r.events == s.events && r.samples == s.samples && r.frame == s.frame
    ensures e.NoteOn? ==> r.playing == Some(Start(SampleForNote(s.samples, e.note)))
    ensures e.NoteOff? ==> r.playing.None?
    ensures e.PitchBend? ==> r.pitchBend == e.value && r.playing == s.playing
    ensures !e.PitchBend? ==> r.pitchBend == s.pitchBend
    ensures s.Valid() ==> r.Valid()
  {
    match e
    case NoteOn(_, note, _) =>
      s.(playing := Some(Start(SampleForNote(s.samples, note))))
    case NoteOff(_, _) => s.(playing := None)
    case PitchBend(_, value) => s.(pitchBend := value)
  }

  /** The events of one offset applied in arrival order. */
  function ApplyAll(s: Sampler, es: seq<Event>): (r: Sampler)
    ensures r.events == s.events && r.samples == s.samples && r.frame == s.frame
    ensures s.Valid() ==> r.Valid()
    decreases |es|
  {
    if es == [] then s else Apply(ApplyAll(s, es[..|es| - 1]), es[|es| - 1])
  }

  /** The last note-on or note-off of `es`, if any. */
  function LastVoiceEvent(es: seq<Event>): (r: Option<Event>)
    ensures r.Some? ==> !r.value.PitchBend? && r.value in es
    ensures r.None? ==> forall k :: 0 <= k < |es| ==> es[k].PitchBend?
    decreases |es|
  {
    if es == [] then None
    else if !es[|es| - 1].PitchBend? then Some(es[|es| - 1])
    else LastVoiceEvent(es[..|es| - 1])
  }

  /** The last pitch bend of `es`, if any. */
  function LastBend(es: seq<Event>): (r: Option<real>)
    ensures r.None? ==> forall k :: 0 <= k < |es| ==> !es[k].PitchBend?
    decreases |es|
  {
    if es == [] then None
    else if es[|es| - 1].PitchBend? then Some(es[|es| - 1].value)
    else LastBend(es[..|es| - 1])
  }

  /** The voice after a batch of events is decided by its last note-on or
      note-off alone; the bend by its last pitch bend alone. */
  lemma {:induction false} ApplyAllOutcome(s: Sampler, es: seq<Event>)
    ensures ApplyAll(s, es).playing == match LastVoiceEvent(es)
      case None => s.playing
      case Some(e) => if e.NoteOn? then Some(Start(SampleForNote(s.samples, e.note))) else None
    ensures ApplyAll(s, es).pitchBend == match LastBend(es)
      case None => s.pitchBend
      case Some(v) => v
    decreases |es|
  {
    if es != [] {
      ApplyAllOutcome(s, es[..|es| - 1]);
    }
  }

  /** Rendering one frame: silence without a voice; otherwise the voice is
      evaluated into the frame array, the left output takes slot 0 and the
      right output slot 1 for a stereo sample, slot 0 again for a mono one. */
  function Render(s: Sampler, law: BendLaw): (r: (real, real, Sampler))
    requires s.Valid()
    ensures r.2.Valid()
    ensures r.2.events == s.events && r.2.samples == s.samples && r.2.pitchBend == s.pitchBend
    ensures r.2.playing.Some? <==> s.playing.Some?
    ensures s.playing.None? ==> r.0 == 0.0 && r.1 == 0.0
    ensures s.playing.Some? && s.playing.value.done ==> r.0 == 0.0 && r.1 == 0.0
    ensures s.playing.Some? && s.playing.value.entry.sample.channels == 1 ==> r.0 == r.1
    ensures s.playing.Some? && !s.playing.value.done ==>
      var v := s.playing.value;
      r.0 == v.entry.sample.data[v.position][0] &&
      (v.entry.sample.channels == 2 ==> r.1 == v.entry.sample.data[v.position][1])
    ensures s.playing.None? ==> r.2 == s
    ensures s.playing.Some? ==>
      var (frame', v') := Evaluate(s.playing.value, s.frame, s.pitchBend, law);
      r.2 == s.(playing := Some(v'), frame := frame')
  {
    match s.playing
    case None => (0.0, 0.0, s)
    case Some(v) =>
      var channels := v.entry.sample.channels;
      EvaluateKeepsValid(v, s.frame, s.pitchBend, law);
      var (frame', v') := Evaluate(v, s.frame, s.pitchBend, law);
      var right := if channels == 2 then frame'[1] else frame'[0];
      (frame'[0], right, s.(playing := Some(v'), frame := frame'))
  }

  /** One iteration of the `onProcess` loop: take the events of `index`,
      apply them in arrival order, render one frame. */
  function Step(s: Sampler, index: int, law: BendLaw): (r: (real, real, Sampler))
    requires s.Valid()
    ensures r.2.Valid() && r.2.samples == s.samples
    ensures r.2.events == Take(s.events, index).1
  {
    Render(ApplyAll(s.(events := Take(s.events, index).1), Held(s.events, index)), law)
  }

  /** What frame 0 of an entry's sample sounds like: channel 0 on the left,
      channel 1 on the right, or channel 0 again for a mono sample. */
  function FirstFrameOut(e: Entry): (real, real)
  {
    var first := e.sample.data[0];
    (first[0], if e.sample.channels == 2 then first[1] else first[0])
  }

  /** What a frame with events sounds like: after a note-off it is silent;
      after a note-on it is the first frame of the note's sample. */
  lemma StepAfterVoiceEvent(s: Sampler, index: int, law: BendLaw)
    requires s.Valid()
    requires LastVoiceEvent(Held(s.events, index)).Some?
    ensures LastVoiceEvent(Held(s.events, index)).value.NoteOff? ==>
      Step(s, index, law).0 == 0.0 && Step(s, index, law).1 == 0.0
    ensures LastVoiceEvent(Held(s.events, index)).value.NoteOn? ==>
      (Step(s, index, law).0, Step(s, index, law).1)
        == FirstFrameOut(SampleForNote(s.samples, LastVoiceEvent(Held(s.events, index)).value.note))
  {
    ApplyAllOutcome(s.(events := Take(s.events, index).1), Held(s.events, index));
    var e := LastVoiceEvent(Held(s.events, index)).value;
    if e.NoteOn? {
      LookupAlwaysPlayable(s.samples, e.note);
    }
  }

  /** No note-on is buffered for any offset in `[0, frames)`. */
  predicate NoNoteOnBefore(q: EventBuffer, frames: int)
  {
    forall t, k :: 0 <= t < frames && 0 <= k < |Held(q, t)| ==> !Held(q, t)[k].NoteOn?
  }

  /** A loop over the offsets `from .. from + k - 1` whose iteration `step`
      takes a state and an offset to a left output, a right output and the
      next state: the outputs in order, and the state after the last one. */
  function Fold<S>(step: (S, int) -> (real, real, S), s: S, from: int, k: nat)
    : (r: (seq<real>, seq<real>, S))
    ensures |r.0| == |r.1| == k
    decreases k
  {
    if k == 0 then ([], [], s)
    else
      var prev := Fold(step, s, from, k - 1);
      var out := step(prev.2, from + k - 1);
      (prev.0 + [out.0], prev.1 + [out.1], out.2)
  }

  /** Running a loop over `a + b` offsets is running it over the first `a`
      and then, from where that left off, over the next `b`. */
  lemma {:induction false} FoldSplit<S>(step: (S, int) -> (real, real, S), s: S, from: int, a: nat, b: nat)
    ensures Fold(step, s, from, a + b).0
      == Fold(step, s, from, a).0 + Fold(step, Fold(step, s, from, a).2, from + a, b).0
    ensures Fold(step, s, from, a + b).1
      == Fold(step, s, from, a).1 + Fold(step, Fold(step, s, from, a).2, from + a, b).1
    ensures Fold(step, s, from, a + b).2 == Fold(step, Fold(step, s, from, a).2, from + a, b).2
    decreases b
  {
    var head := Fold(step, s, from, a);
    if b > 0 {
      FoldSplit(step, s, from, a, b - 1);
      var tailBefore := Fold(step, head.2, from + a, b - 1);
      var out := step(tailBefore.2, from + a + b - 1);
      assert (head.0 + tailBefore.0) + [out.0] == head.0 + (tailBefore.0 + [out.0]);
      assert (head.1 + tailBefore.1) + [out.1] == head.1 + (tailBefore.1 + [out.1]);
    } else {
      assert head.0 + [] == head.0 && head.1 + [] == head.1;
    }
  }

  /** One iteration of the `onProcess` loop as a value. The loop only meets
      reachable samplers, on which it is `Step`; any other is left as it is. */
  function Iteration(law: BendLaw): (Sampler, int) -> (real, real, Sampler)
  {
    (p: Sampler, t: int) => if p.Valid() then Step(p, t, law) else (0.0, 0.0, p)
  }

  /** The loop keeps the sampler reachable and its map unchanged. */
  lemma {:induction false} IterationsKeepValid(s: Sampler, from: int, k: nat, law: BendLaw)
    requires s.Valid()
    ensures Fold(Iteration(law), s, from, k).2.Valid()
    ensures Fold(Iteration(law), s, from, k).2.samples == s.samples
    decreases k
  {
    if k > 0 {
      IterationsKeepValid(s, from, k - 1, law);
    }
  }

  /** The loop of `onProcess` run over the offsets `from .. from + k - 1`:
      the left outputs, the right outputs and the sampler afterwards. */
  function Steps(s: Sampler, from: int, k: nat, law: BendLaw): (r: (seq<real>, seq<real>, Sampler))
    requires s.Valid()
    ensures |r.0| == |r.1| == k
    ensures r.2.Valid() && r.2.samples == s.samples
  {
    IterationsKeepValid(s, from, k, law);
    Fold(Iteration(law), s, from, k)
  }

  /** A run over no offsets outputs nothing and changes nothing. */
  lemma StepsNone(s: Sampler, from: int, law: BendLaw)
    requires s.Valid()
    ensures Steps(s, from, 0, law).0 == [] && Steps(s, from, 0, law).1 == []
    ensures Steps(s, from, 0, law).2 == s
  {
  }

  /** The last iteration of a non-empty run is `Step` on the state the
      earlier iterations leave. */
  lemma StepsLast(s: Sampler, from: int, k: nat, law: BendLaw)
    requires s.Valid() && k > 0
    ensures Steps(s, from, k, law).0 == Steps(s, from, k - 1, law).0
      + [Step(Steps(s, from, k - 1, law).2, from + k - 1, law).0]
    ensures Steps(s, from, k, law).1 == Steps(s, from, k - 1, law).1
      + [Step(Steps(s, from, k - 1, law).2, from + k - 1, law).1]
    ensures Steps(s, from, k, law).2 == Step(Steps(s, from, k - 1, law).2, from + k - 1, law).2
  {
  }

  /** Running the loop over `a + b` offsets is running it over the first `a`
      and then, from where that left off, over the next `b`. */
  lemma StepsSplit(s: Sampler, from: int, a: nat, b: nat, law: BendLaw)
    requires s.Valid()
    ensures Steps(s, from, a + b, law).0
      == Steps(s, from, a, law).0 + Steps(Steps(s, from, a, law).2, from + a, b, law).0
    ensures Steps(s, from, a + b, law).1
      == Steps(s, from, a, law).1 + Steps(Steps(s, from, a, law).2, from + a, b, law).1
    ensures Steps(s, from, a + b, law).2 == Steps(Steps(s, from, a, law).2, from + a, b, law).2
  {
    FoldSplit(Iteration(law), s, from, a, b);
  }

  /** The loop drains exactly the offsets it visits; every other offset keeps
      its events. */
  lemma {:induction false} StepsDrain(s: Sampler, from: int, k: nat, law: BendLaw)
    requires s.Valid()
    ensures forall t :: from <= t < from + k ==> t !in Steps(s, from, k, law).2.events.events
    ensures forall t :: !(from <= t < from + k) ==> Held(Steps(s, from, k, law).2.events, t) == Held(s.events, t)
    decreases k
  {
    if k > 0 {
      StepsDrain(s, from, k - 1, law);
      StepsLast(s, from, k, law);
    }
  }

  /** With nothing playing and no note-on due at the visited offsets, the
      loop writes silence and leaves nothing playing. */
  lemma {:induction false} StepsSilent(s: Sampler, from: int, k: nat, law: BendLaw)
    requires s.Valid() && s.playing.None?
    requires forall t, j :: from <= t < from + k && 0 <= j < |Held(s.events, t)| ==> !Held(s.events, t)[j].NoteOn?
    ensures Steps(s, from, k, law).2.playing.None?
    ensures forall i :: 0 <= i < k ==> Steps(s, from, k, law).0[i] == 0.0 && Steps(s, from, k, law).1[i] == 0.0
    decreases k
  {
    if k > 0 {
      StepsSilent(s, from, k - 1, law);
      var before := Steps(s, from, k - 1, law);
      var t := from + k - 1;
      assert Held(before.2.events, t) == Held(s.events, t) by {
        StepsDrain(s, from, k - 1, law);
      }
      SilentStep(before.2, t, law);
      var after := Steps(s, from, k, law);
      assert after.0 == before.0 + [0.0] && after.1 == before.1 + [0.0] && after.2.playing.None? by {
        StepsLast(s, from, k, law);
      }
    }
  }

  /** One iteration with nothing playing and no note-on at its offset is
      silent and leaves nothing playing. */
  lemma SilentStep(p: Sampler, t: int, law: BendLaw)
    requires p.Valid() && p.playing.None?
    requires forall j :: 0 <= j < |Held(p.events, t)| ==> !Held(p.events, t)[j].NoteOn?
    ensures Step(p, t, law).2.playing.None?
    ensures Step(p, t, law).0 == 0.0 && Step(p, t, law).1 == 0.0
  {
    ApplyAllOutcome(p.(events := Take(p.events, t).1), Held(p.events, t));
  }

  /** Every frame whose offset holds a note-on or a note-off sounds as
      `StepAfterVoiceEvent` says. */
  lemma {:induction false} StepsVoiceEvents(s: Sampler, from: int, k: nat, law: BendLaw)
    requires s.Valid()
    ensures forall i :: 0 <= i < k && LastVoiceEvent(Held(s.events, from + i)).Some? ==>
      && (LastVoiceEvent(Held(s.events, from + i)).value.NoteOff? ==>
            Steps(s, from, k, law).0[i] == 0.0 && Steps(s, from, k, law).1[i] == 0.0)
      && (LastVoiceEvent(Held(s.events, from + i)).value.NoteOn? ==>
            (Steps(s, from, k, law).0[i], Steps(s, from, k, law).1[i])
              == FirstFrameOut(SampleForNote(s.samples, LastVoiceEvent(Held(s.events, from + i)).value.note)))
    decreases k
  {
    if k > 0 {
      StepsVoiceEvents(s, from, k - 1, law);
      StepsLast(s, from, k, law);
      StepsDrain(s, from, k - 1, law);
      var prev := Steps(s, from, k - 1, law).2;
      assert Held(prev.events, from + k - 1) == Held(s.events, from + (k - 1));
      if LastVoiceEvent(Held(s.events, from + (k - 1))).Some? {
        StepAfterVoiceEvent(prev, from + k - 1, law);
      }
    }
  }

  /** One iteration at an offset with no events evaluates the voice once,
      under the current bend, into the frame array. */
  lemma QuietStep(p: Sampler, t: int, law: BendLaw)
    requires p.Valid() && p.playing.Some? && Held(p.events, t) == []
    ensures Step(p, t, law).2.playing == Some(Evaluate(p.playing.value, p.frame, p.pitchBend, law).1)
    ensures Step(p, t, law).2.frame == Evaluate(p.playing.value, p.frame, p.pitchBend, law).0
    ensures Step(p, t, law).2.pitchBend == p.pitchBend
    ensures Step(p, t, law).0 == Evaluate(p.playing.value, p.frame, p.pitchBend, law).0[0]
    ensures Step(p, t, law).1 == if p.playing.value.entry.sample.channels == 2
      then Evaluate(p.playing.value, p.frame, p.pitchBend, law).0[1]
      else Evaluate(p.playing.value, p.frame, p.pitchBend, law).0[0]
  {
  }

  /** The left outputs for a run of frames written into the frame array:
      channel 0 of each. */
  function LeftOut(frames: seq<seq<real>>): (r: seq<real>)
    requires forall i :: 0 <= i < |frames| ==> |frames[i]| == 2
    ensures |r| == |frames|
    ensures forall i :: 0 <= i < |frames| ==> r[i] == frames[i][0]
    decreases |frames|
  {
    if frames == [] then [] else LeftOut(frames[..|frames| - 1]) + [frames[|frames| - 1][0]]
  }

  /** The right outputs for a run of frames: channel 1 of each for a stereo
      sample, channel 0 again for a mono one. */
  function RightOut(frames: seq<seq<real>>, channels: int): (r: seq<real>)
    requires forall i :: 0 <= i < |frames| ==> |frames[i]| == 2
    ensures |r| == |frames|
    ensures forall i :: 0 <= i < |frames| ==> r[i] == if channels == 2 then frames[i][1] else frames[i][0]
    decreases |frames|
  {
    if frames == [] then []
    else
      var f := frames[|frames| - 1];
      RightOut(frames[..|frames| - 1], channels) + [if channels == 2 then f[1] else f[0]]
  }

  /** Two loops in lock step: when `related` holds of their states at every
      offset of the run and one iteration of each keeps it and outputs the
      same, the runs output the same and end related. */
  lemma {:induction false} FoldSimulation<S, T>(
    f: (S, int) -> (real, real, S), g: (T, int) -> (real, real, T),
    related: (S, T, int) -> bool, s: S, x: T, from: int, k: nat)
    requires related(s, x, from)
    requires forall p, y, t {:trigger related(p, y, t)} :: from <= t < from + k && related(p, y, t) ==>
      && f(p, t).0 == g(y, t).0 && f(p, t).1 == g(y, t).1
      && related(f(p, t).2, g(y, t).2, t + 1)
    ensures Fold(f, s, from, k).0 == Fold(g, x, from, k).0
    ensures Fold(f, s, from, k).1 == Fold(g, x, from, k).1
    ensures related(Fold(f, s, from, k).2, Fold(g, x, from, k).2, from + k)
    decreases k
  {
    if k > 0 {
      FoldSimulation(f, g, related, s, x, from, k - 1);
      LockStep(f, g, related, Fold(f, s, from, k - 1).2, Fold(g, x, from, k - 1).2, from, k);
    }
  }

  /** The last iteration of a run of `FoldSimulation`. */
  lemma LockStep<S, T>(
    f: (S, int) -> (real, real, S), g: (T, int) -> (real, real, T),
    related: (S, T, int) -> bool, p: S, y: T, from: int, k: nat)
    requires k > 0 && related(p, y, from + k - 1)
    requires forall p, y, t {:trigger related(p, y, t)} :: from <= t < from + k && related(p, y, t) ==>
      && f(p, t).0 == g(y, t).0 && f(p, t).1 == g(y, t).1
      && related(f(p, t).2, g(y, t).2, t + 1)
    ensures f(p, from + k - 1).0 == g(y, from + k - 1).0 && f(p, from + k - 1).1 == g(y, from + k - 1).1
    ensures related(f(p, from + k - 1).2, g(y, from + k - 1).2, from + k)
  {
  }

  /** The voice alone under a fixed bend, as a loop iteration over the voice
      and the frame array: each iteration evaluates the voice once and
      outputs channel 0 on the left, channel 1 (stereo) or 0 (mono) on the
      right. */
  function Playing(bend: real, law: BendLaw): ((Voice, seq<real>), int) -> (real, real, (Voice, seq<real>))
  {
    (x: (Voice, seq<real>), t: int) =>
      if |x.1| == 2 && x.0.Valid() then
        EvaluateKeepsValid(x.0, x.1, bend, law);
        var (f, v') := Evaluate(x.0, x.1, bend, law);
        (f[0], if x.0.entry.sample.channels == 2 then f[1] else f[0], (v', f))
      else (0.0, 0.0, x)
  }

  /** Over offsets that hold no events, the loop is the voice playing alone:
      the same outputs, and it ends with the voice and the frame array the
      voice alone ends with, under the bend it started with. */
  lemma QuietStepsPlayAlone(s: Sampler, from: int, k: nat, law: BendLaw)
    requires s.Valid() && s.playing.Some?
    requires forall t :: from <= t < from + k ==> Held(s.events, t) == []
    ensures Steps(s, from, k, law).0 == Fold(Playing(s.pitchBend, law), (s.playing.value, s.frame), from, k).0
    ensures Steps(s, from, k, law).1 == Fold(Playing(s.pitchBend, law), (s.playing.value, s.frame), from, k).1
    ensures Steps(s, from, k, law).2.playing == Some(Fold(Playing(s.pitchBend, law), (s.playing.value, s.frame), from, k).2.0)
    ensures Steps(s, from, k, law).2.frame == Fold(Playing(s.pitchBend, law), (s.playing.value, s.frame), from, k).2.1
    ensures Steps(s, from, k, law).2.pitchBend == s.pitchBend
  {
    var bend := s.pitchBend;
    AloneSimulates(bend, from, k, law);
    FoldSimulation(Iteration(law), Playing(bend, law), Alone(bend, from + k), s, (s.playing.value, s.frame), from, k);
  }

  /** Every loop iteration over the quiet offsets keeps the sampler in step
      with the voice playing alone. */
  lemma AloneSimulates(bend: real, from: int, k: nat, law: BendLaw)
    ensures forall p: Sampler, x: (Voice, seq<real>), t: int | from <= t < from + k && Alone(bend, from + k)(p, x, t) ::
      && Iteration(law)(p, t).0 == Playing(bend, law)(x, t).0
      && Iteration(law)(p, t).1 == Playing(bend, law)(x, t).1
      && Alone(bend, from + k)(Iteration(law)(p, t).2, Playing(bend, law)(x, t).2, t + 1)
  {
    forall p: Sampler, x: (Voice, seq<real>), t: int | from <= t < from + k && Alone(bend, from + k)(p, x, t)
      ensures && Iteration(law)(p, t).0 == Playing(bend, law)(x, t).0
              && Iteration(law)(p, t).1 == Playing(bend, law)(x, t).1
              && Alone(bend, from + k)(Iteration(law)(p, t).2, Playing(bend, law)(x, t).2, t + 1)
    {
      AloneStep(p, x, t, bend, from + k, law);
    }
  }

  /** A sampler at offset `t` is the voice `x.0` with frame array `x.1` playing
      alone under `bend` while no events are held for `t .. end - 1`. */
  function Alone(bend: real, end: int): (Sampler, (Voice, seq<real>), int) -> bool
  {
    (p: Sampler, x: (Voice, seq<real>), t: int) =>
      && p.Valid() && p.playing == Some(x.0) && p.frame == x.1 && p.pitchBend == bend
      && forall u :: t <= u < end ==> Held(p.events, u) == []
  }

  /** One iteration of the loop and of the voice alone keep `Alone` and output
      the same. */
  lemma AloneStep(p: Sampler, x: (Voice, seq<real>), t: int, bend: real, end: int, law: BendLaw)
    requires t < end && Alone(bend, end)(p, x, t)
    ensures Iteration(law)(p, t).0 == Playing(bend, law)(x, t).0
    ensures Iteration(law)(p, t).1 == Playing(bend, law)(x, t).1
    ensures Alone(bend, end)(Iteration(law)(p, t).2, Playing(bend, law)(x, t).2, t + 1)
  {
    QuietStep(p, t, law);
  }

  /** One iteration of the voice playing alone evaluates it once. */
  lemma PlayingOnce(bend: real, law: BendLaw, x: (Voice, seq<real>), t: int)
    requires |x.1| == 2 && x.0.Valid()
    ensures Playing(bend, law)(x, t).2 == (Evaluate(x.0, x.1, bend, law).1, Evaluate(x.0, x.1, bend, law).0)
    ensures Playing(bend, law)(x, t).0 == Evaluate(x.0, x.1, bend, law).0[0]
    ensures Playing(bend, law)(x, t).1 == if x.0.entry.sample.channels == 2
      then Evaluate(x.0, x.1, bend, law).0[1] else Evaluate(x.0, x.1, bend, law).0[0]
  {
  }

  /** The voice playing alone ends with the voice `Voices.Play` ends with and
      the last frame it wrote (the initial frame array after no frames). */
  lemma {:induction false} PlayingEnds(v: Voice, frame: seq<real>, bend: real, law: BendLaw, from: int, k: nat)
    requires |frame| == 2 && v.Valid()
    ensures Fold(Playing(bend, law), (v, frame), from, k).2.0 == Play(v, frame, k, bend, law).1
    ensures Fold(Playing(bend, law), (v, frame), from, k).2.1
      == if k == 0 then frame else Play(v, frame, k, bend, law).0[k - 1]
    decreases k
  {
    if k > 0 {
      PlayingEnds(v, frame, bend, law, from, k - 1);
      var before := Fold(Playing(bend, law), (v, frame), from, k - 1).2;
      PlayingOnce(bend, law, before, from + k - 1);
      PlayLast(v, frame, k, bend, law);
    }
  }

  /** The voice playing alone is `Voices.Play` read out: channel 0 of each
      frame written on the left, channel 1 or 0 on the right. */
  lemma {:induction false} PlayingIsPlay(v: Voice, frame: seq<real>, bend: real, law: BendLaw, from: int, k: nat)
    requires |frame| == 2 && v.Valid()
    ensures Fold(Playing(bend, law), (v, frame), from, k).0 == LeftOut(Play(v, frame, k, bend, law).0)
    ensures Fold(Playing(bend, law), (v, frame), from, k).1
      == RightOut(Play(v, frame, k, bend, law).0, v.entry.sample.channels)
    decreases k
  {
    if k > 0 {
      PlayingIsPlay(v, frame, bend, law, from, k - 1);
      PlayingEnds(v, frame, bend, law, from, k - 1);
      var before := Fold(Playing(bend, law), (v, frame), from, k - 1).2;
      PlayingOnce(bend, law, before, from + k - 1);
      PlayLast(v, frame, k, bend, law);
      var out := Play(v, frame, k, bend, law).0;
      assert out[..k - 1] == Play(v, frame, k - 1, bend, law).0;
    }
  }

  /** Over offsets that hold no events, the sampler plays its voice on as
      `Voices.Play` does under the current bend: its outputs are the frames
      `Play` writes, and it ends with the voice `Play` ends with, the bend
      unchanged and the last frame `Play` wrote in its frame array. */
  lemma QuietStepsPlayVoice(s: Sampler, from: int, k: nat, law: BendLaw)
    requires s.Valid() && s.playing.Some?
    requires forall t :: from <= t < from + k ==> Held(s.events, t) == []
    ensures Steps(s, from, k, law).0 == LeftOut(Play(s.playing.value, s.frame, k, s.pitchBend, law).0)
    ensures Steps(s, from, k, law).1
      == RightOut(Play(s.playing.value, s.frame, k, s.pitchBend, law).0, s.playing.value.entry.sample.channels)
    ensures Steps(s, from, k, law).2.playing
      == Some(Play(s.playing.value, s.frame, k, s.pitchBend, law).1)
    ensures Steps(s, from, k, law).2.pitchBend == s.pitchBend
    ensures k == 0 ==> Steps(s, from, k, law).2.frame == s.frame
    ensures k > 0 ==> Steps(s, from, k, law).2.frame == Play(s.playing.value, s.frame, k, s.pitchBend, law).0[k - 1]
  {
    QuietStepsPlayAlone(s, from, k, law);
    PlayingEnds(s.playing.value, s.frame, s.pitchBend, law, from, k);
    PlayingIsPlay(s.playing.value, s.frame, s.pitchBend, law, from, k);
  }

  /** The number of frames `onProcess` renders: none when `frames` is not
      positive. */
  function BlockLength(frames: int): (n: nat)
    ensures frames > 0 ==> n == frames
    ensures frames <= 0 ==> n == 0
  {
    if frames > 0 then frames else 0
  }

  /** What one block sounds like: the visited offsets are drained and every
      other keeps its events; with nothing playing and no note-on due the block
      is silent; every frame whose offset holds a note-on or a note-off obeys
      `StepAfterVoiceEvent`. */
  lemma Block(s: Sampler, frames: int, law: BendLaw)
    requires s.Valid()
    ensures forall t :: 0 <= t < frames ==> t !in Steps(s, 0, BlockLength(frames), law).2.events.events
    ensures forall t :: !(0 <= t < frames) ==>
      Held(Steps(s, 0, BlockLength(frames), law).2.events, t) == Held(s.events, t)
    ensures s.playing.None? && NoNoteOnBefore(s.events, frames) ==>
      && Steps(s, 0, BlockLength(frames), law).2.playing.None?
      && forall i :: 0 <= i < BlockLength(frames) ==>
           Steps(s, 0, BlockLength(frames), law).0[i] == 0.0 && Steps(s, 0, BlockLength(frames), law).1[i] == 0.0
    ensures forall i :: 0 <= i < BlockLength(frames) && LastVoiceEvent(Held(s.events, i)).Some? ==>
      && (LastVoiceEvent(Held(s.events, i)).value.NoteOff? ==>
            Steps(s, 0, BlockLength(frames), law).0[i] == 0.0 && Steps(s, 0, BlockLength(frames), law).1[i] == 0.0)
      && (LastVoiceEvent(Held(s.events, i)).value.NoteOn? ==>
            (Steps(s, 0, BlockLength(frames), law).0[i], Steps(s, 0, BlockLength(frames), law).1[i])
              == FirstFrameOut(SampleForNote(s.samples, LastVoiceEvent(Held(s.events, i)).value.note)))
  {
    var n := BlockLength(frames);
    StepsDrain(s, 0, n, law);
    StepsVoiceEvents(s, 0, n, law);
    if s.playing.None? && NoNoteOnBefore(s.events, frames) {
      StepsSilent(s, 0, n, law);
    }
  }

  /** No events at all are buffered for any offset in `[0, frames)`. */
  predicate NoEventsBefore(q: EventBuffer, frames: int)
  {
    forall t :: 0 <= t < frames ==> Held(q, t) == []
  }

  /** A block with a voice playing and no events due plays the voice on as
      `Voices.Play` does, and keeps the bend. */
  lemma QuietBlock(s: Sampler, frames: int, law: BendLaw)
    requires s.Valid() && s.playing.Some? && NoEventsBefore(s.events, frames)
    ensures var n := BlockLength(frames);
      var played := Play(s.playing.value, s.frame, n, s.pitchBend, law);
      && Steps(s, 0, n, law).0 == LeftOut(played.0)
      && Steps(s, 0, n, law).1 == RightOut(played.0, s.playing.value.entry.sample.channels)
      && Steps(s, 0, n, law).2.playing == Some(played.1)
      && Steps(s, 0, n, law).2.pitchBend == s.pitchBend
  {
    QuietStepsPlayVoice(s, 0, BlockLength(frames), law);
  }

  /** `onProcess`: renders `frames` frames (none when `frames` is not
      positive), one loop iteration per offset `0 .. frames - 1`: the outputs
      and the sampler afterwards are those of `Steps`. The visited offsets are
      drained and every other offset keeps its events for a later block; a
      block with a voice playing and no events due sounds as `QuietBlock`
      states. */
  method OnProcess(s: Sampler, frames: int, law: BendLaw)
    returns (left: seq<real>, right: seq<real>, s': Sampler)
    requires s.Valid()
    ensures |left| == |right| == BlockLength(frames)
    ensures left == Steps(s, 0, BlockLength(frames), law).0
    ensures right == Steps(s, 0, BlockLength(frames), law).1
    ensures s' == Steps(s, 0, BlockLength(frames), law).2
    ensures s'.Valid() && s'.samples == s.samples
    ensures forall t :: 0 <= t < frames ==> t !in s'.events.events
    ensures forall t :: !(0 <= t < frames) ==> Held(s'.events, t) == Held(s.events, t)
    ensures s.playing.None? && NoNoteOnBefore(s.events, frames) ==>
      s'.playing.None? && forall i :: 0 <= i < |left| ==> left[i] == 0.0 && right[i] == 0.0
    ensures forall i :: 0 <= i < |left| && LastVoiceEvent(Held(s.events, i)).Some? ==>
      var e := LastVoiceEvent(Held(s.events, i)).value;
      && (e.NoteOff? ==> left[i] == 0.0 && right[i] == 0.0)
      && (e.NoteOn? ==> (left[i], right[i]) == FirstFrameOut(SampleForNote(s.samples, e.note)))
  {
    var n := BlockLength(frames);
    left, right, s' := [], [], s;
    var index := 0;
    while index < n
      invariant 0 <= index <= n
      invariant left == Steps(s, 0, index, law).0 && right == Steps(s, 0, index, law).1
      invariant s' == Steps(s, 0, index, law).2
    {
      StepsLast(s, 0, index + 1, law);
      var (l, r, next) := Step(s', index, law);
      left, right, s' := left + [l], right + [r], next;
      index := index + 1;
    }
    Block(s, frames, law);
  }
}
