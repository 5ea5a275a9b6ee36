/** Decoded audio buffers and the entries of a sample map
    (`SampleBufferType` and `SampleMapEntry` in the Java code). */
module Samples {

  /** A buffer of frames; each frame holds one value per channel. */
  datatype Sample = Sample(channels: int, data: seq<seq<real>>)
  {
    /** Mono or stereo, at least one frame, every frame as wide as the channel count. */
    predicate WellFormed()
    {
      && (channels == 1 || channels == 2)
      && |data| >= 1
      && forall i :: 0 <= i < |data| ==> |data[i]| == channels
    }

    function Frames(): nat
    {
      |data|
    }
  }

  /** The buffers the sampler plays. The model assumes every decoded file is
      well formed: mono or stereo, with at least one frame. The Java code
      checks neither; see `Sample.WellFormed`. */
  type SampleBuffer = s: Sample | s.WellFormed() witness Sample(2, [[0.0, 0.0]])

  /** A sample together with the rate at which to play it for some note. */
  datatype Entry = Entry(sample: SampleBuffer, playbackRate: real)
}
