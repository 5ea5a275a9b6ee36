# sampler0 — a Dafny model of the sampler core

This project models the deterministic core of io7m's `sampler0`, a
single-voice sample-playback synthesizer. It covers:

- **Sample-map construction** (`SampleMapDescription.load`). A sparse map from
  MIDI note to audio file becomes a dense map over the 128 MIDI notes.
  - Every described note plays its own file at rate 1.0.
  - Every other note borrows a neighbour's file, pitched one semitone ratio per
    step of distance.
  - `SampleMap` enforces "empty or exactly 128 entries". Its lookup falls back
    to a one-frame silent entry.
- **The note table and semitone constants** (`Notes`).
- **The event buffer** (`EventBuffer`): control events bucketed by frame
  offset within an audio block, oldest first.
- **The single-voice engine** (`SamplerMono`). For each frame index of a block
  it takes that index's events, applies them in arrival order (note-on, note-off,
  pitch bend), then renders one stereo frame. The playing voice
  (`SampleState`) reads at the truncated integer position, advances a real
  phase by `playbackRate × rateScale`, and latches `done` once it runs past
  the end.
- **The linear decay envelope** (`EnvelopeD`).
- **The control-message decoder** (`Main.parseEvent`). It handles the channel
  voice messages 8n Note Off, 9n Note On and En Pitch Bend Change of the
  MIDI 1.0 Detailed Specification (Channel Voice Messages), decoded as the
  code decodes them.

The files are:

- `prelude.dfy`: `Option`, `Result`, Java `int` as `Int32` with explicit
  wrap-around, and integer ranges.
- `notes.dfy`, `samples.dfy`, `sample_map.dfy`, `map_builder.dfy`.
- `events.dfy`, `event_buffer.dfy`, `envelope.dfy`, `voice.dfy`, `sampler.dfy`,
  `midi_decoder.dfy`.

Representation choices:

- A description (`Int2ObjectSortedMap` of note to path) is a sequence of
  `(note, path)` pairs with distinct notes, listed in ascending note order;
  `Load` requires `Sorted()` for this.
  - The description's own comparator does not decide that order.
  - `load` copies the decoded buffers into a naturally ordered
    `Int2ObjectRBTreeMap` (SampleMapDescription.java:50-51).
  - Its main loop walks that copy (SampleMapDescription.java:78), so it always
    meets the notes in ascending order.
  - Both descriptions the program loads are in natural order anyway: the
    empty one (SampleMapDescription.java:37), which the constructor loads at
    SamplerMono.java:89, and the one Main builds and loads at Main.java:177-181.
- Hash maps are Dafny `map`s.
- Doubles and floats are `real`s.
- Bytes are `bv8`. The pitch-bend combination is carried out on 32-bit
  patterns.

The proof of the map builder follows the main loop iteration by iteration.
`FillInvariant` states what the entries are after `i` described notes. It
connects the loop to `Reference`, an independent statement of each note's
final entry: the nearest described note at or above it, pitched down, or
above the highest described note, the highest one, pitched up.

In these places the model follows the code as written:

- Offsets that `onProcess` does not reach stay buffered for a later block.
  They are not dropped.
- A note-on with velocity 0 stays a note-on.
- The pitch bend is `(msb << 8) | lsb` over sign-extended bytes, scaled by
  1/32768. The standard's 14-bit `msb * 128 + lsb` is not used.
- A note-on's note is the unsigned byte, so it lies in 0..255.
- A voice that latches `done` still stores its new phase and position.

## Model

| member | source | states |
|---|---|---|
| Notes.SemitoneRatioBounds | src/main/java/com/io7m/sampler0/Notes.java:25-37 | a step up raises a rate and a step down lowers it without reaching zero: 0 < DOWN < 1 < UP |
| Notes.SemitoneRatiosNotReciprocal | src/main/java/com/io7m/sampler0/Notes.java:30-37 | the two literals are not exact reciprocals: UP·DOWN falls short of 1 by more than 7·10⁻⁷ |
| Notes.Create | src/main/java/com/io7m/sampler0/Notes.java:48-58 | the table holds exactly the notes 0..128, which is 129 entries |
| Notes.FrequencyOfNote | src/main/java/com/io7m/sampler0/Notes.java:60-64 | a tabled note yields its table entry; any other note yields 0.0 |
| Notes.OutOfTableIsSilent | src/main/java/com/io7m/sampler0/Notes.java:48-64 | every note outside 0..128 has frequency 0.0, whatever the power function |
| Notes.ReferencePitch | src/main/java/com/io7m/sampler0/Notes.java:52-54 | note 16 has frequency exactly 440 Hz, since its exponent is 0 |
| Notes.TabledFrequencies | src/main/java/com/io7m/sampler0/Notes.java:51-55 | each tabled note has frequency 440·2^((n−16)/12), which is positive when the power is |
| SampleMaps.EmptyDescription | src/main/java/com/io7m/sampler0/SampleMapDescription.java:35-38 | the empty description describes no note |
| SampleMaps.EmptyEntry | src/main/java/com/io7m/sampler0/SampleMap.java:28-32 | the fallback entry is a stereo, one-frame, all-zero buffer at rate 1.0 |
| SampleMaps.NewSampleMap | src/main/java/com/io7m/sampler0/SampleMap.java:37-51 | construction succeeds exactly when the map is empty or has 128 entries; on success it keeps the entries and the description unchanged |
| SampleMaps.Empty | src/main/java/com/io7m/sampler0/SampleMap.java:53-59 | the empty map has no entries and the empty description |
| SampleMaps.SampleForNote | src/main/java/com/io7m/sampler0/SampleMap.java:61-65 | a present note yields its entry; an absent one yields the fallback entry |
| SampleMaps.LookupAlwaysPlayable | src/main/java/com/io7m/sampler0/SampleMap.java:61-65 | with forward rates in the map, every lookup, present or not, yields a forward rate and at least one frame |
| SampleMaps.EmptyMapIsSilent | src/main/java/com/io7m/sampler0/SampleMap.java:53-65 | on the empty map every note yields the fallback entry |
| SampleMaps.ConstructorCountsOnly | src/main/java/com/io7m/sampler0/SampleMap.java:46-50 | the constructor accepts 128 entries none of which is a MIDI note: only the count is checked |
| SampleMaps.ConstructorRejectsPartialMap | src/main/java/com/io7m/sampler0/SampleMap.java:46-50 | a map with between 1 and 127 entries is rejected |
| MapBuilder.DecodeAll | src/main/java/com/io7m/sampler0/SampleMapDescription.java:53-73 | each described note gets the decoding of its own file, with notes and their order kept |
| MapBuilder.WalkDown | src/main/java/com/io7m/sampler0/SampleMapDescription.java:84-94 | the downward walk only adds entries, never removing a key; `WalkDownKeys` and `WalkDownValues` give exactly which notes it adds and at which rates |
| MapBuilder.WalkUp | src/main/java/com/io7m/sampler0/SampleMapDescription.java:96-106 | the upward walk only adds entries, never removing a key; `WalkUpKeys` and `WalkUpValues` give exactly which notes it adds and at which rates |
| MapBuilder.Place | src/main/java/com/io7m/sampler0/SampleMapDescription.java:82-106 | one iteration keeps every earlier key and adds the described note itself; `PlaceStepKeys` and `PlaceStep` give the exact keys and entries after it |
| MapBuilder.Fill | src/main/java/com/io7m/sampler0/SampleMapDescription.java:78-107 | after the first i iterations every one of the first i described notes has an entry; `FillEstablishes` gives the full loop invariant |
| MapBuilder.Extrapolate | src/main/java/com/io7m/sampler0/SampleMapDescription.java:78-107 | every described note has an entry in the built map; `ExtrapolateMatchesReference` gives each entry as the reference entry, and `ExtrapolateCovers` adds every MIDI note |
| MapBuilder.WalkDownKeys | src/main/java/com/io7m/sampler0/SampleMapDescription.java:84-94 | the downward walk adds exactly the notes from its start down to just above the first described note, or down to 0 |
| MapBuilder.WalkDownValues | src/main/java/com/io7m/sampler0/SampleMapDescription.java:84-94 | the note k steps below the walk's start gets the walking sample at rate·DOWN^k; every other entry is left alone |
| MapBuilder.WalkUpKeys | src/main/java/com/io7m/sampler0/SampleMapDescription.java:96-106 | the upward walk adds exactly the notes from its start up to just below the next described note, or up to 127 |
| MapBuilder.WalkUpValues | src/main/java/com/io7m/sampler0/SampleMapDescription.java:96-106 | the note k steps above the walk's start gets rate·UP^k; every other entry is left alone |
| MapBuilder.PlaceInRange | src/main/java/com/io7m/sampler0/SampleMapDescription.java:86-98 | for a MIDI note the Java `int` start points `note − 1` and `note + 1` do not wrap |
| MapBuilder.PlaceStepKeys | src/main/java/com/io7m/sampler0/SampleMapDescription.java:78-107 | after the iteration for described note i, the keys are exactly the notes below the next described note, or all of 0..127 after the last one |
| MapBuilder.PlaceStep | src/main/java/com/io7m/sampler0/SampleMapDescription.java:78-107 | one iteration of the main loop establishes, then preserves, the loop invariant over the processed prefix |
| MapBuilder.FillEstablishes | src/main/java/com/io7m/sampler0/SampleMapDescription.java:78-107 | after any number of iterations, the processed notes and the gaps below them hold their final entries, and the notes above the last one hold its upward walk |
| MapBuilder.ExtrapolateMatchesReference | src/main/java/com/io7m/sampler0/SampleMapDescription.java:78-107 | with every described note in 0..127, the built map has exactly the keys 0..127 (128 entries), and each entry is the reference entry |
| MapBuilder.ExtrapolateCovers | src/main/java/com/io7m/sampler0/SampleMapDescription.java:78-107 | whatever `int` notes are described, every MIDI note and every described note receives an entry |
| MapBuilder.LoadOutcome | src/main/java/com/io7m/sampler0/SampleMapDescription.java:78-110 | the built map has exactly 128 entries iff every described note is a MIDI note; when one is not, it has more than 128 |
| MapBuilder.Load | src/main/java/com/io7m/sampler0/SampleMapDescription.java:40-112 | the empty description gives the empty map; otherwise the load succeeds exactly when every described note is in 0..127; a loaded map keeps the description, is valid, and plays every entry forward |
| MapBuilder.LoadedEntries | src/main/java/com/io7m/sampler0/SampleMapDescription.java:78-110 | a successful load of a non-empty description maps exactly the notes 0..127, each to its reference entry |
| MapBuilder.LoadDescribedNote | src/main/java/com/io7m/sampler0/SampleMapDescription.java:82-105 | every described note plays its own file at rate exactly 1.0: neither walk overwrites it |
| MapBuilder.LoadBelowDescribed | src/main/java/com/io7m/sampler0/SampleMapDescription.java:78-94 | a note strictly between described notes A < B gets B's file at DOWN^(B−n), so the higher neighbour wins; below the lowest described note L, a note gets L's file at DOWN^(L−n) |
| MapBuilder.LoadAboveHighest | src/main/java/com/io7m/sampler0/SampleMapDescription.java:96-106 | above the highest described note H, a MIDI note gets H's file at UP^(n−H) |
| MapBuilder.LoadOutsideMidiIsSilent | src/main/java/com/io7m/sampler0/SampleMapDescription.java:86-105 | after a successful load, a note outside 0..127 falls back to the silent entry |
| EventBuffers.Held | src/main/java/com/io7m/sampler0/EventBuffer.java:37-40 | the events held for an offset are its bucket when one exists and the empty list otherwise, as `events.get` with `null` read as empty; `Add` and `Take` are stated through it |
| EventBuffers.New | src/main/java/com/io7m/sampler0/EventBuffer.java:28-31 | a new buffer holds no events for any offset |
| EventBuffers.Add | src/main/java/com/io7m/sampler0/EventBuffer.java:33-43 | the event is appended at the end of its offset's bucket, which is created if absent; every other offset is unchanged |
| EventBuffers.Take | src/main/java/com/io7m/sampler0/EventBuffer.java:45-53 | returns the offset's events, or the empty list, and removes the bucket; other offsets are untouched; an absent offset leaves the buffer unchanged |
| EventBuffers.TakeTwice | src/main/java/com/io7m/sampler0/EventBuffer.java:45-53 | a second take of the same offset returns nothing and changes nothing |
| EventBuffers.AddAllThenTake | src/main/java/com/io7m/sampler0/EventBuffer.java:33-53 | k adds at one offset extend that offset's bucket by exactly those k events, in order, and leave other offsets alone |
| EventBuffers.AddsThenTakeFromEmpty | src/main/java/com/io7m/sampler0/EventBuffer.java:33-53 | k adds at one offset to a new buffer, then a take, return exactly those k events in arrival order |
| EventBuffers.Conservation | src/main/java/com/io7m/sampler0/EventBuffer.java:33-53 | over any sequence of adds and takes, for each offset, the events taken followed by those still held equal the events held at the start followed by those added, in order |
| Envelopes.New | src/main/java/com/io7m/sampler0/EnvelopeD.java:25-29 | a new envelope's counter starts at the decay length, so it is fully decayed |
| Envelopes.Trigger | src/main/java/com/io7m/sampler0/EnvelopeD.java:31-34 | a trigger resets only the counter, to 0 |
| Envelopes.Evaluate | src/main/java/com/io7m/sampler0/EnvelopeD.java:36-44 | the counter stays within [0, decayFrames] and advances by one, saturating; the gain is in [0, 1], is 1 at counter 0 and is 0 at the decay length |
| Envelopes.UntriggeredIsSilent | src/main/java/com/io7m/sampler0/EnvelopeD.java:25-44 | a never-triggered envelope yields 0.0 on every evaluation and never changes |
| Envelopes.TriggeredGains | src/main/java/com/io7m/sampler0/EnvelopeD.java:31-44 | after a trigger, evaluation i yields 1 − min(i, decayFrames)/decayFrames |
| Envelopes.TriggeredEndpoints | src/main/java/com/io7m/sampler0/EnvelopeD.java:31-44 | the first evaluation after a trigger yields 1.0; from evaluation decayFrames onward it yields 0.0 |
| Envelopes.GainsNonIncreasing | src/main/java/com/io7m/sampler0/EnvelopeD.java:36-44 | between triggers the gains stay in [0, 1] and never rise |
| Voices.DoubleToInt | src/main/java/com/io7m/sampler0/SamplerMono.java:67-68 | the `(int)` cast truncates toward zero from both sides (0 ≤ r ≤ x < r + 1 for x ≥ 0, r − 1 < x ≤ r ≤ 0 for x ≤ 0) and saturates at `Integer.MAX_VALUE` and `Integer.MIN_VALUE` |
| Voices.Start | src/main/java/com/io7m/sampler0/SamplerMono.java:40-47 | a new voice is at position 0, phase 0.0, not done; with a forward rate it is in a reachable state |
| Voices.Read | src/main/java/com/io7m/sampler0/SamplerMono.java:58-59 | a stereo frame replaces both slots; a mono frame replaces slot 0 and leaves slot 1 |
| Voices.Evaluate | src/main/java/com/io7m/sampler0/SamplerMono.java:49-76 | a finished voice writes a silent frame and does not change; otherwise it reads at its position, then advances the phase by rate·rateScale, sets the position to the cast phase, and is done iff that position is past the last frame |
| Voices.EvaluateKeepsValid | src/main/java/com/io7m/sampler0/SamplerMono.java:44-75 | the reachable-state invariant (forward rate, phase ≥ 0, position = cast phase, done iff position ≥ frames) is preserved, so every read is in bounds; the phase strictly grows |
| Voices.Play | src/main/java/com/io7m/sampler0/SamplerMono.java:49-76 | repeated evaluation writes one two-slot frame per call and keeps the voice reachable |
| Voices.DoneIsAbsorbing | src/main/java/com/io7m/sampler0/SamplerMono.java:53-56 | once done, a voice writes silence for ever and never changes |
| Voices.PlayLast | src/main/java/com/io7m/sampler0/SamplerMono.java:49-76 | the k-th evaluation reads from the frame the (k−1)-th wrote, or from the initial frame array, and acts on the voice it left |
| Voices.UnitRatePosition | src/main/java/com/io7m/sampler0/SamplerMono.java:64-75 | at rate 1 and rate scale 1, a fresh voice is at position and phase k after k evaluations, and is done exactly once k is the frame count |
| Voices.UnitRateReadsInOrder | src/main/java/com/io7m/sampler0/SamplerMono.java:58-75 | at rate 1 and rate scale 1, a fresh voice writes channel 0 of frames 0, 1, 2, … in turn, whatever the channel count |
| Voices.UnitRateReadsStereo | src/main/java/com/io7m/sampler0/SamplerMono.java:58-75 | at rate 1 and rate scale 1, a fresh voice on a stereo sample writes the whole of frames 0, 1, 2, … in turn, both channels |
| Sampler.New | src/main/java/com/io7m/sampler0/SamplerMono.java:79-90 | a new sampler has no events, the empty map and no voice; its bend is 0.0 and its frame array is all zeros, the field defaults of SamplerMono.java:30-31 |
| Sampler.OnEvent | src/main/java/com/io7m/sampler0/SamplerMono.java:145-150 | an incoming event is appended to its offset's bucket and nothing else changes: map, voice, bend and frame array are kept |
| Sampler.LoadSamples | src/main/java/com/io7m/sampler0/SamplerMono.java:92-104 | a successfully loaded map replaces the current one; a failed load changes nothing |
| Sampler.Apply | src/main/java/com/io7m/sampler0/SamplerMono.java:114-125 | a note-on starts a fresh voice on the note's entry, a note-off stops the voice whatever its note, and a pitch bend sets the bend |
| Sampler.ApplyAll | src/main/java/com/io7m/sampler0/SamplerMono.java:113-125 | applying an offset's events keeps the buffer, the map and the frame array, and keeps the sampler in a reachable state |
| Sampler.ApplyAllOutcome | src/main/java/com/io7m/sampler0/SamplerMono.java:114-125 | after a batch of events, the voice is determined by the last note-on or note-off alone, and the bend by the last pitch bend alone |
| Sampler.Render | src/main/java/com/io7m/sampler0/SamplerMono.java:127-141 | with no voice or a finished voice both outputs are 0.0; otherwise left is channel 0 at the voice's position and right is channel 1, or channel 0 again for a mono sample; without a voice the sampler is unchanged, and with one the voice advances by one `Evaluate` and the frame array holds the frame it wrote, all else kept |
| Sampler.Step | src/main/java/com/io7m/sampler0/SamplerMono.java:112-141 | one loop iteration removes exactly the current offset's bucket and keeps the sampler reachable |
| Sampler.StepAfterVoiceEvent | src/main/java/com/io7m/sampler0/SamplerMono.java:113-141 | a frame whose last voice event is a note-off is silent on both sides; one whose last is a note-on outputs frame 0 of that note's sample, channel 0 on the left and channel 1 (stereo) or 0 (mono) on the right |
| Sampler.Steps | src/main/java/com/io7m/sampler0/SamplerMono.java:112-142 | the loop over k offsets outputs k values per side and keeps the sampler reachable with its map unchanged |
| Sampler.StepsLast | src/main/java/com/io7m/sampler0/SamplerMono.java:112-142 | the last iteration of a run is one `Step` on the state the earlier ones leave, appending one value per side |
| Sampler.FoldSplit | src/main/java/com/io7m/sampler0/SamplerMono.java:112-142 | a loop over a + b offsets is the loop over the first a followed by the loop over the next b from where it stopped |
| Sampler.StepsSplit | src/main/java/com/io7m/sampler0/SamplerMono.java:112-142 | the same split for the `onProcess` loop: outputs concatenate and the final state is that of the second part |
| Sampler.StepsDrain | src/main/java/com/io7m/sampler0/SamplerMono.java:112-113 | the loop removes exactly the buckets of the offsets it visits; every other offset keeps its events |
| Sampler.StepsSilent | src/main/java/com/io7m/sampler0/SamplerMono.java:112-141 | with no voice and no note-on at the visited offsets, every output is 0.0 and no voice is playing afterwards |
| Sampler.StepsVoiceEvents | src/main/java/com/io7m/sampler0/SamplerMono.java:112-141 | every frame of a run whose offset holds a note-on or note-off sounds as `StepAfterVoiceEvent` states |
| Sampler.QuietStep | src/main/java/com/io7m/sampler0/SamplerMono.java:127-137 | at an offset with no events, one iteration evaluates the playing voice once under the unchanged bend and outputs the frame it wrote |
| Sampler.FoldSimulation | src/main/java/com/io7m/sampler0/SamplerMono.java:112-142 | two loops whose iterations keep a relation and output the same values produce the same outputs and end related |
| Sampler.AloneStep | src/main/java/com/io7m/sampler0/SamplerMono.java:127-137 | at an offset with no events, a loop iteration and one evaluation of the voice alone output the same and stay in step |
| Sampler.QuietStepsPlayAlone | src/main/java/com/io7m/sampler0/SamplerMono.java:112-142 | over offsets with no events, the loop outputs what the voice alone outputs and ends with its voice and frame array, bend unchanged |
| Sampler.PlayingOnce | src/main/java/com/io7m/sampler0/SamplerMono.java:127-137 | one iteration of the voice alone is one `Evaluate`, read out as `onProcess` reads the frame array |
| Sampler.PlayingEnds | src/main/java/com/io7m/sampler0/SamplerMono.java:49-76 | the voice alone ends with the voice `Play` ends with and the last frame it wrote |
| Sampler.PlayingIsPlay | src/main/java/com/io7m/sampler0/SamplerMono.java:127-137 | the voice alone outputs channel 0 of each frame `Play` writes on the left, channel 1 or 0 on the right |
| Sampler.QuietStepsPlayVoice | src/main/java/com/io7m/sampler0/SamplerMono.java:112-142 | over offsets with no events a playing voice plays on as `Play` does: outputs are `Play`'s frames read out per side, and the sampler ends with `Play`'s voice, its last frame, and the bend unchanged |
| Sampler.BlockLength | src/main/java/com/io7m/sampler0/SamplerMono.java:112 | the loop runs `frames` times when `frames` is positive and not at all otherwise |
| Sampler.Block | src/main/java/com/io7m/sampler0/SamplerMono.java:112-142 | a block drains offsets 0..frames−1 and keeps the others; with no voice and no note-on due it is silent; each frame with a voice event obeys `StepAfterVoiceEvent` |
| Sampler.QuietBlock | src/main/java/com/io7m/sampler0/SamplerMono.java:112-142 | a block with a voice playing and no events due outputs `Play`'s frames of that voice, read out per side, and ends with `Play`'s voice and the bend unchanged |
| Sampler.OnProcess | src/main/java/com/io7m/sampler0/SamplerMono.java:106-143 | the outputs and final sampler are exactly those of the loop `Steps` over offsets 0..frames−1; hence it takes those offsets while others keep their events, a block with no voice and no note-on due is silent, and each frame with a voice event obeys `StepAfterVoiceEvent` (`QuietBlock` states the same loop for a block with no events) |
| MidiDecoder.Status | src/main/java/com/io7m/sampler0/Main.java:230 | the status is the high nibble of the first byte, in 0..15 |
| MidiDecoder.Unsigned | src/main/java/com/io7m/sampler0/Main.java:234 | `& 0xff` gives the unsigned byte value, in 0..255 |
| MidiDecoder.Widen | src/main/java/com/io7m/sampler0/Main.java:246-247 | widening a byte to `int` keeps its low byte and its two's-complement value (sign extension) |
| MidiDecoder.CombineBend | src/main/java/com/io7m/sampler0/Main.java:248 | the shifted-or combination of the widened bytes always fits 16-bit signed range, −32768..32767; `CombineBendCases` gives its exact value |
| MidiDecoder.BendValue | src/main/java/com/io7m/sampler0/Main.java:248-250 | the bend value lies in [−3, 1) for any two bytes; `BendMessagesDecode` narrows it to [−1, 1) for standard data bytes |
| MidiDecoder.ParseEvent | src/main/java/com/io7m/sampler0/Main.java:225-255 | an event is produced iff the message is non-empty with status 8, 9 or 14; it carries the given time; status 9 is a note-on with the unsigned note and velocity/127, 8 a note-off, and 14 a pitch bend |
| MidiDecoder.CombineBendCases | src/main/java/com/io7m/sampler0/Main.java:246-248 | with the LSB's high bit clear, the shifted-or combination is signed msb·256 + lsb; with it set, the result is the sign-extended LSB alone |
| MidiDecoder.ChannelIgnored | src/main/java/com/io7m/sampler0/Main.java:229-231 | messages that differ only in the channel nibble decode identically |
| MidiDecoder.NoteOffIgnoresThirdByte | src/main/java/com/io7m/sampler0/Main.java:240-243 | a note-off reads only two bytes: a third byte changes nothing |
| MidiDecoder.NoteMessagesDecode | src/main/java/com/io7m/sampler0/Main.java:233-243 | standard note-on and note-off messages, on any channel, decode to their note and to velocity/127 in [0, 1]; velocity 0 still gives a note-on |
| MidiDecoder.BendMessagesDecode | src/main/java/com/io7m/sampler0/Main.java:245-251 | for standard data bytes the bend lies in [−1, 1), with (0, 0) giving −1 and (0, 0x40) giving 0; it equals the standard's 14-bit reading minus lsb/16384 |
| MidiDecoder.BendHighLsbIgnoresMsb | src/main/java/com/io7m/sampler0/Main.java:245-251 | an LSB of 0x80 or more makes the MSB irrelevant and gives a value in [−1.0078125, −1) |

## Left out

- Audio file decoding and sample-rate conversion (`SXMSampleBuffers`,
  `converter.convert`) are foreign library calls. `Load` takes them as one
  function from path to buffer.
- The I/O exception wrapping at the end of `load` is left out with them.
- `StrictMath.pow(2, x)` is a parameter of `Notes.Create`. Its value at 0 is
  assumed only where a lemma needs it.
- `PitchBend.pitchBendToRate` is not part of this model. It is a parameter
  whose only known property is a positive result.
- Floating point is modelled as exact reals: IEEE rounding, and the `(float)`
  casts of velocity, gain and output samples.
  - The semitone constants are their exact decimal literals.
  - The pitch-bend arithmetic is exact in `double` for its operands, so
    nothing is lost there.
- The asynchronous publication of a loaded map (`executeIO`, `volatile`
  fields) and the sampler's constructor-time load request are threading and
  I/O. `LoadSamples` takes the finished load's result.
- Writes into `FloatBuffer`s: the outputs are two sequences of length
  `frames`.
- `Main.java` outside `parseEvent`: the JACK client, ports, threads and logging.
- Array bounds in `parseEvent`. The code indexes `data[1]` and `data[2]`
  without a length check. `ParseEvent` requires the bytes the recognised status
  reads (`LongEnough`) instead of modelling the exception.
- `parseEvent`'s `null` result is `None`.
- The sample contents beyond their frames and channels.
- Voices.Read: `frameGetExact` belongs to a foreign library. The model
  assumes that on a mono buffer it writes slot 0 of the frame array and
  leaves slot 1 as it was. No output depends on slot 1 for a mono sample,
  since `onProcess` then reads slot 0 on both sides.
- Samples.SampleBuffer: the model assumes every decoded buffer has 1 or 2
  channels and at least one frame, and the Java code checks neither.
  - `load` (SampleMapDescription.java:54-72) stores whatever the decoder
    returns.
  - A buffer with no frames would fail in `frameGetExact` on the first
    evaluation (SamplerMono.java:59). The model has no such failure.
  - A buffer with more than 2 channels does not fit the 2-slot `frame`
    array (SamplerMono.java:31). The model does not represent one.
- EventBuffers.Conservation: it is stated offset by offset, as ordered
  sequences. The multiset over all offsets together is the sum of these
  statements and is not stated separately.
- MapBuilder.Load: a description whose map keeps its notes in a non-natural
  comparator order is not represented. The model takes the pairs in
  ascending order, which is the order `load` re-sorts them into before it
  builds the map.
- MapBuilder.LoadedEntries: the individual entries are stated only when every
  described note is in 0..127. Otherwise the load fails (`Load`,
  `LoadOutcome`), so no map is ever built from those entries.
