/** The control events the sampler consumes (`EventType` in the Java code):
    each carries the frame offset, within the current audio block, at which
    it takes effect. */
module Events {

  datatype Event =
    | NoteOn(time: int, note: int, velocity: real)
    | NoteOff(time: int, note: int)
    | PitchBend(time: int, value: real)
}
