/** The linear decay envelope (`EnvelopeD`): a frame counter that saturates
    at the decay length, read as a gain falling from 1 to 0. */
module Envelopes {
  import opened Prelude

  /** The decay length in frames, fixed by the constructor. */
  const DecayFrames: int := 11000

  /** Only the counter changes; the decay length is the constant above. */
  datatype Envelope = Envelope(time: Int32)
  {
    predicate Valid()
    {
      0 <= time <= DecayFrames
    }
  }

  /** A fresh envelope starts fully decayed. */
  function New(): (e: Envelope)
    ensures e.Valid() && e.time == DecayFrames
  {
    Envelope(DecayFrames)
  }

  /** `trigger`: restart the decay. */
  function Trigger(e: Envelope): (r: Envelope)
    ensures r.Valid() && r.time == 0
  {
    Envelope(0)
  }

  /** `evaluate`: the gain `1 - time / decayFrames`, and the counter advanced
      by one frame, saturating at the decay length (the increment is Java
      `int` arithmetic). */
  function Evaluate(e: Envelope): (r: (real, Envelope))
    ensures e.Valid() ==> r.1.Valid() && 0.0 <= r.0 <= 1.0
    ensures e.Valid() ==> r.1.time == if e.time < DecayFrames then e.time + 1 else DecayFrames
    ensures e.time == 0 ==> r.0 == 1.0
    ensures e.time == DecayFrames ==> r.0 == 0.0 && r.1 == e
  {
    var now := 1.0 - e.time as real / DecayFrames as real;
    var next := Wrap32(e.time + 1);
    (now, Envelope(if DecayFrames < next then DecayFrames else next))
  }

  /** The gain the next evaluation of `e` yields. */
  function Gain(e: Envelope): real
  {
    Evaluate(e).0
  }

  /** The gains of `k` successive evaluations, and the envelope after them. */
  function Run(e: Envelope, k: nat): (r: (seq<real>, Envelope))
    ensures |r.0| == k
    decreases k
  {
    if k == 0 then ([], e)
    else
      var (gains, e') := Run(e, k - 1);
      (gains + [Evaluate(e').0], Evaluate(e').1)
  }

  /** A never-triggered envelope stays silent. */
  lemma {:induction false} UntriggeredIsSilent(k: nat)
    ensures Run(New(), k).1 == New()
    ensures forall i :: 0 <= i < k ==> Run(New(), k).0[i] == 0.0
  {
    if k > 0 {
      UntriggeredIsSilent(k - 1);
    }
  }

  /** After a trigger, evaluation `i` (counting from 0) yields
      `1 - min(i, decayFrames) / decayFrames`. */
  lemma {:induction false} TriggeredGains(e: Envelope, k: nat)
    ensures Run(Trigger(e), k).1.time == if k < DecayFrames then k else DecayFrames
    ensures forall i :: 0 <= i < k ==>
      Run(Trigger(e), k).0[i] == 1.0 - (if i < DecayFrames then i else DecayFrames) as real / DecayFrames as real
  {
    if k > 0 {
      TriggeredGains(e, k - 1);
    }
  }

  /** The first evaluation after a trigger is at full gain, and from the
      `decayFrames`-th one on the gain is 0. */
  lemma TriggeredEndpoints(e: Envelope, k: nat)
    ensures k > 0 ==> Run(Trigger(e), k).0[0] == 1.0
    ensures forall i :: DecayFrames <= i < k ==> Run(Trigger(e), k).0[i] == 0.0
  {
    TriggeredGains(e, k);
  }

  /** Between triggers the gains never rise and stay within [0, 1]. */
  lemma {:induction false} GainsNonIncreasing(e: Envelope, k: nat)
    requires e.Valid()
    ensures Run(e, k).1.Valid()
    ensures forall i :: 0 <= i < k ==> 0.0 <= Run(e, k).0[i] <= 1.0
    ensures forall i, j :: 0 <= i <= j < k ==> Run(e, k).0[j] <= Run(e, k).0[i]
    ensures forall i :: 0 <= i < k ==> Gain(Run(e, k).1) <= Run(e, k).0[i]
  {
    if k > 0 {
      GainsNonIncreasing(e, k - 1);
    }
  }
}
