/** Decoding a raw control message into an event (`Main.parseEvent`): the
    three channel voice messages of the MIDI 1.0 Detailed Specification
    (Channel Voice Messages: 8n Note Off, 9n Note On, En Pitch Bend Change),
    decoded as the code does it rather than as the standard prescribes. */
module MidiDecoder {
  import opened Prelude
  import opened Events

  /** Java's `byte`, kept as its bit pattern. */
  type Byte = bv8

  /** The status nibble: `(data[0] & 0xF0) >>> 4` on the sign-extended byte. */
  function Status(b: Byte): (s: int)
    ensures 0 <= s < 16
  {
    ((b & 0xF0) >> 4) as int
  }

  /** `(int) b & 0xff`: the unsigned value of a byte. */
  function Unsigned(b: Byte): (n: int)
    ensures 0 <= n < 256
  {
    b as int
  }

  /** Java's widening of a `byte` to `int`, as a 32-bit pattern: sign extension. */
  function Widen(b: Byte): (w: bv32)
    ensures (w & 0xFF) as Byte == b
    ensures AsInt(w) == Signed(b)
  {
    if b < 0x80 then b as bv32 else b as bv32 | 0xFFFF_FF00
  }

  /** The two's-complement value of a byte. */
  function Signed(b: Byte): (n: int)
    ensures -128 <= n < 128
  {
    if b < 0x80 then b as int else b as int - 0x100
  }

  /** The value of a 32-bit pattern as a Java `int`, read byte by byte: the
      top byte carries the sign. */
  function AsInt(w: bv32): (n: Int32)
  {
    var b0 := (w & 0xFF) as Byte;
    var b1 := ((w >> 8) & 0xFF) as Byte;
    var b2 := ((w >> 16) & 0xFF) as Byte;
    var b3 := (w >> 24) as Byte;
    Signed(b3) * 0x100_0000 + b2 as int * 0x1_0000 + b1 as int * 0x100 + b0 as int
  }

  /** `(msb << 8) | lsb` on the widened bytes; the result always fits a
      16-bit signed value (`CombineBendCases` gives it exactly). */
  function CombineBend(lsb: Byte, msb: Byte): (n: int)
    ensures -0x8000 <= n < 0x8000
  {
    if lsb >= 0x80 then
      CombineHighLsb(lsb, msb);
      AsInt((Widen(msb) << 8) | Widen(lsb))
    else if msb >= 0x80 then
      CombineLowLsbHighMsb(lsb, msb);
      AsInt((Widen(msb) << 8) | Widen(lsb))
    else
      CombineLowLsbLowMsb(lsb, msb);
      AsInt((Widen(msb) << 8) | Widen(lsb))
  }

  /** `((double) val / 32768.0) * 2.0 - 1.0`. For these integer operands
      every step is exact in double precision. */
  function BendValue(lsb: Byte, msb: Byte): (v: real)
    ensures -3.0 <= v < 1.0
  {
    (CombineBend(lsb, msb) as real / 32768.0) * 2.0 - 1.0
  }

  /** The code indexes `data[1]` and `data[2]` without checking the length:
      a recognised status needs three bytes, or two for a note-off. */
  predicate LongEnough(data: seq<Byte>)
  {
    |data| > 0 ==>
      && (Status(data[0]) == 9 || Status(data[0]) == 14 ==> |data| >= 3)
      && (Status(data[0]) == 8 ==> |data| >= 2)
  }

  /** `parseEvent`: status 9 is a note-on (even at velocity 0), status 8 a
      note-off, status 14 a pitch bend; anything else, and the empty
      message, yields no event. The channel nibble is ignored. */
  function ParseEvent(data: seq<Byte>, time: int): (r: Option<Event>)
    requires LongEnough(data)
    ensures r.Some? <==> |data| > 0 && Status(data[0]) in {8, 9, 14}
    ensures r.Some? ==> r.value.time == time
    ensures r.Some? && Status(data[0]) == 9 ==>
      r.value.NoteOn? && r.value.note == Unsigned(data[1])
      && r.value.velocity == Unsigned(data[2]) as real / 127.0
    ensures r.Some? && Status(data[0]) == 8 ==> r.value.NoteOff? && r.value.note == Unsigned(data[1])
    ensures r.Some? && Status(data[0]) == 14 ==>
      r.value.PitchBend? && r.value.value == BendValue(data[1], data[2])
  {
    if |data| > 0 then
      var status := Status(data[0]);
      if status == 9 then
        Some(NoteOn(time, Unsigned(data[1]), Unsigned(data[2]) as real / 127.0))
      else if status == 8 then
        Some(NoteOff(time, Unsigned(data[1])))
      else if status == 14 then
        Some(PitchBend(time, BendValue(data[1], data[2])))
      else None
    else None
  }

  /** Reading a pattern whose bytes are known. */
  lemma AsIntOfBytes(w: bv32, b0: Byte, b1: Byte, b2: Byte, b3: Byte)
    requires (w & 0xFF) as Byte == b0 && ((w >> 8) & 0xFF) as Byte == b1
    requires ((w >> 16) & 0xFF) as Byte == b2 && (w >> 24) as Byte == b3
    ensures AsInt(w) == Signed(b3) * 0x100_0000 + b2 as int * 0x1_0000 + b1 as int * 0x100 + b0 as int
  {
  }

  /** What the combination computes: with the high bit of the LSB clear it is
      `msb * 256 + lsb` with a signed MSB; with it set, the sign extension of
      the LSB fills every higher bit and the MSB is lost. */
  lemma CombineBendCases(lsb: Byte, msb: Byte)
    ensures lsb < 0x80 ==> CombineBend(lsb, msb) == Signed(msb) * 0x100 + Unsigned(lsb)
    ensures lsb >= 0x80 ==> CombineBend(lsb, msb) == Signed(lsb)
  {
    if lsb < 0x80 {
      if msb < 0x80 {
        CombineLowLsbLowMsb(lsb, msb);
      } else {
        CombineLowLsbHighMsb(lsb, msb);
      }
    } else {
      CombineHighLsb(lsb, msb);
    }
  }

  lemma CombineLowLsbLowMsb(lsb: Byte, msb: Byte)
    requires lsb < 0x80 && msb < 0x80
    ensures AsInt((Widen(msb) << 8) | Widen(lsb)) == msb as int * 0x100 + lsb as int
  {
  }

  lemma CombineLowLsbHighMsb(lsb: Byte, msb: Byte)
    requires lsb < 0x80 && msb >= 0x80
    ensures AsInt((Widen(msb) << 8) | Widen(lsb)) == (msb as int - 0x100) * 0x100 + lsb as int
  {
    AsIntOfBytes((Widen(msb) << 8) | Widen(lsb), lsb, msb, 0xFF, 0xFF);
  }

  lemma CombineHighLsb(lsb: Byte, msb: Byte)
    requires lsb >= 0x80
    ensures AsInt((Widen(msb) << 8) | Widen(lsb)) == lsb as int - 0x100
  {
    AsIntOfBytes((Widen(msb) << 8) | Widen(lsb), lsb, 0xFF, 0xFF, 0xFF);
  }

  /** Only the status nibble of the first byte matters: messages that differ
      in the channel nibble decode alike. */
  lemma ChannelIgnored(data: seq<Byte>, data': seq<Byte>, time: int)
    requires |data| == |data'| > 0 && data[1..] == data'[1..]
    requires data[0] & 0xF0 == data'[0] & 0xF0
    requires LongEnough(data)
    ensures LongEnough(data')
    ensures ParseEvent(data, time) == ParseEvent(data', time)
  {
  }

  /** A note-off reads two bytes: a third byte, whatever it is, changes nothing. */
  lemma NoteOffIgnoresThirdByte(data: seq<Byte>, time: int)
    requires |data| >= 3 && Status(data[0]) == 8
    ensures ParseEvent(data, time) == ParseEvent(data[..2], time)
    ensures ParseEvent(data, time) == Some(NoteOff(time, Unsigned(data[1])))
  {
  }

  /** The message `9n note velocity` in the standard's form. */
  function NoteOnMessage(channel: Byte, note: Byte, velocity: Byte): (m: seq<Byte>)
    requires channel < 16 && note < 0x80 && velocity < 0x80
    ensures |m| == 3 && Status(m[0]) == 9
  {
    [0x90 | channel, note, velocity]
  }

  /** The message `8n note velocity` in the standard's form. */
  function NoteOffMessage(channel: Byte, note: Byte, velocity: Byte): (m: seq<Byte>)
    requires channel < 16 && note < 0x80 && velocity < 0x80
    ensures |m| == 3 && Status(m[0]) == 8
  {
    [0x80 | channel, note, velocity]
  }

  /** Decoding standard note messages recovers the note and the velocity as a
      fraction of 127, on any channel; a velocity of 0 still gives a note-on. */
  lemma NoteMessagesDecode(channel: Byte, note: Byte, velocity: Byte, time: int)
    requires channel < 16 && note < 0x80 && velocity < 0x80
    ensures ParseEvent(NoteOnMessage(channel, note, velocity), time)
         == Some(NoteOn(time, note as int, velocity as real / 127.0))
    ensures ParseEvent(NoteOffMessage(channel, note, velocity), time)
         == Some(NoteOff(time, note as int))
    ensures 0.0 <= velocity as real / 127.0 <= 1.0
  {
  }

  /** The message `En lsb msb` in the standard's form. */
  function BendMessage(channel: Byte, lsb: Byte, msb: Byte): (m: seq<Byte>)
    requires channel < 16 && lsb < 0x80 && msb < 0x80
    ensures |m| == 3 && Status(m[0]) == 14
  {
    [0xE0 | channel, lsb, msb]
  }

  /** The bend as the standard reads it: the 14-bit value `msb * 128 + lsb`,
      centred on 0x2000 and scaled to [-1, 1). */
  function StandardBend(lsb: Byte, msb: Byte): real
    requires lsb < 0x80 && msb < 0x80
  {
    (msb as int * 0x80 + lsb as int) as real / 8192.0 - 1.0
  }

  /** For standard data bytes the decoded bend lies in [-1, 1): all-zero bytes
      give exactly -1, the centre `lsb = 0, msb = 0x40` gives 0. It agrees with
      the standard's reading when the LSB is 0 and falls below it by
      `lsb / 16384` otherwise, because the MSB is shifted by 8 bits, not 7. */
  lemma BendMessagesDecode(channel: Byte, lsb: Byte, msb: Byte, time: int)
    requires channel < 16 && lsb < 0x80 && msb < 0x80
    ensures ParseEvent(BendMessage(channel, lsb, msb), time) == Some(PitchBend(time, BendValue(lsb, msb)))
    ensures -1.0 <= BendValue(lsb, msb) < 1.0
    ensures lsb == 0 && msb == 0 ==> BendValue(lsb, msb) == -1.0
    ensures lsb == 0 && msb == 0x40 ==> BendValue(lsb, msb) == 0.0
    ensures BendValue(lsb, msb) == StandardBend(lsb, msb) - lsb as real / 16384.0
  {
    CombineBendCases(lsb, msb);
  }

  /** An LSB with its high bit set swamps the MSB: the value depends on the
      LSB alone and lies in [-1.0078125, -1). */
  lemma BendHighLsbIgnoresMsb(lsb: Byte, msb: Byte, msb': Byte)
    requires lsb >= 0x80
    ensures BendValue(lsb, msb) == BendValue(lsb, msb')
    ensures -1.0078125 <= BendValue(lsb, msb) < -1.0
  {
    CombineBendCases(lsb, msb);
    CombineBendCases(lsb, msb');
  }
}
