/** The network-server payload decoder: `Decoder`, `u8` and `s16`, over the module-level
    `cursor` and `buffer`. A JavaScript number `x / 10` is kept as `Tenths(x)`. */
module TtnDecoder {
  import opened Primitives
  import opened Frame

  /** A decoded voltage or temperature: `null`, the number `value / 10`, or `NaN`. */
  datatype Field = Null | Tenths(value: int) | NaN

  /** The object `Decoder` returns; a `header` of `None` is `undefined`. */
  datatype Decoded = Decoded(header: Option<uint8>, voltage: Field, temperature: Field)

  /** `buffer.slice(i)[0]`: the byte at `i`, or `undefined` past the end. */
  function ByteAt(bytes: seq<uint8>, i: nat): (b: Option<uint8>)
    ensures b.Some? <==> i < |bytes|
    ensures b.Some? ==> b.value == bytes[i]
  {
    if i < |bytes| then Some(bytes[i]) else None
  }

  /** A byte as an operand of `|` or `<<`: `undefined` converts to 0. */
  function BitOperand(b: Option<uint8>): (x: uint8)
    ensures b.None? ==> x == 0
    ensures b.Some? ==> x == b.value
  {
    if b.Some? then b.value else 0
  }

  /** The arithmetic of `s16`: `value[1] | value[0] << 8` (the two operands occupy disjoint
      bits, so the `|` is a sum); when bit 15 is set, `~value & 0xffff` is `0xffff - value`,
      and the result is the negation of that plus one. */
  function S16Value(b0: uint8, b1: uint8): (r: int16)
    ensures r < 0 <==> b0 >= 0x80
    ensures r % 0x10000 == b0 * 0x100 + b1
  {
    var value := b0 as int * 0x100 + b1;
    if value >= 0x8000 then -((0xFFFF - value) + 1) else value
  }

  /** `voltage === 0xff ? null : voltage / 10`; `undefined / 10` is `NaN`. */
  function VoltageField(v: Option<uint8>): (f: Field)
    ensures f == Null <==> v == Some(0xFF)
    ensures f == NaN <==> v.None?
    ensures f.Tenths? ==> v == Some(f.value)
  {
    if v == Some(0xFF) then Null
    else if v.None? then NaN
    else Tenths(v.value)
  }

  /** `temperature === 0x7fff ? null : temperature / 10`. */
  function TemperatureField(t: int16): (f: Field)
    ensures f == Null <==> t == 0x7FFF
    ensures f != NaN
    ensures f.Tenths? ==> f.value == t
  {
    if t == 0x7FFF then Null else Tenths(t)
  }

  /** What `Decoder` returns when it starts with the module-level cursor at `cursor`. */
  function DecodeAt(bytes: seq<uint8>, cursor: nat): (d: Decoded)
    ensures d.header.Some? <==> cursor < |bytes|
    ensures d.voltage == NaN <==> cursor + 1 >= |bytes|
    ensures d.temperature != NaN
    ensures cursor + 4 <= |bytes| ==> && d.header == Some(bytes[cursor])
                                      && d.temperature == TemperatureField(S16Value(bytes[cursor + 2], bytes[cursor + 3]))
  {
    var header := ByteAt(bytes, cursor);
    var voltage := ByteAt(bytes, cursor + 1);
    var temperature := S16Value(BitOperand(ByteAt(bytes, cursor + 2)), BitOperand(ByteAt(bytes, cursor + 3)));
    Decoded(header, VoltageField(voltage), TemperatureField(temperature))
  }

  /** The decoder script's module state: `cursor` is set once when the script loads and
      only ever grows; `buffer` is replaced on each call. */
  class DecoderModule {
    var cursor: nat
    var buffer: seq<uint8>

    /** Loading the script: `var cursor = 0; var buffer;` (an undefined buffer is empty here). */
    constructor ()
      ensures cursor == 0 && buffer == []
    {
      cursor := 0;
      buffer := [];
    }

    /** `u8`: the byte at the cursor, or `undefined`; the cursor moves by one either way. */
    method U8() returns (value: Option<uint8>)
      modifies this
      ensures value == ByteAt(buffer, old(cursor))
      ensures cursor == old(cursor) + 1 && buffer == old(buffer)
    {
      value := ByteAt(buffer, cursor);
      cursor := cursor + 1;
    }

    /** `s16`: a big-endian signed 16-bit number at the cursor; the cursor moves by two. */
    method S16() returns (value: int16)
      modifies this
      ensures value == S16Value(BitOperand(ByteAt(buffer, old(cursor))), BitOperand(ByteAt(buffer, old(cursor) + 1)))
      ensures cursor == old(cursor) + 2 && buffer == old(buffer)
    {
      var v := BitOperand(ByteAt(buffer, cursor + 1)) + BitOperand(ByteAt(buffer, cursor)) * 0x100;
      if v >= 0x8000 {
        v := (0xFFFF - v) + 1;
        v := -v;
      }
      value := v;
      cursor := cursor + 2;
    }

    /** `Decoder(bytes, port)`: header, voltage and temperature from the current cursor on;
        one call consumes four bytes and never rewinds. */
    method Decoder(bytes: seq<uint8>, port: int) returns (decoded: Decoded)
      modifies this
      ensures buffer == bytes
      ensures cursor == old(cursor) + 4
      ensures decoded == DecodeAt(bytes, old(cursor))
    {
      buffer := bytes;
      var header := U8();
      var voltage := U8();
      var temperature := S16();
      decoded := Decoded(header, VoltageField(voltage), TemperatureField(temperature));
    }
  }

  /** `s16` inverts the firmware's temperature encoding on the whole `int16_t` range. */
  lemma S16RoundTrip(t: int16)
    ensures S16Value(TemperatureHigh(t), TemperatureLow(t)) == t
  {
    var hi, lo := TemperatureHigh(t), TemperatureLow(t);
    TemperatureBytesTwosComplement(t);
    TwosComplementHighByte(t);
    var value := hi as int * 0x100 + lo;
    if t < 0 {
      assert value == t + 0x10000;
    } else {
      assert value == t;
    }
  }

  /** The firmware's encoding inverts `s16`: every byte pair is the encoding of its value. */
  lemma S16Encodes(b0: uint8, b1: uint8)
    ensures TemperatureHigh(S16Value(b0, b1)) == b0
    ensures TemperatureLow(S16Value(b0, b1)) == b1
  {
    var r := S16Value(b0, b1);
    var value := b0 as int * 0x100 + b1;
    if value >= 0x8000 {
      assert r == value - 0x10000;
      assert ArithmeticShiftRight8(r) == b0 - 0x100;
    } else {
      assert r == value;
      assert ArithmeticShiftRight8(r) == b0;
    }
  }

  /** What a frame built by the firmware decodes to from offset 0: the header byte unchanged;
      the voltage in tenths, except that 255 tenths reads as `null` like "absent"; the
      temperature in tenths, except that 0x7FFF reads as `null` and "absent" (0xFF 0xFF)
      reads as -1 tenth, i.e. -0.1. */
  lemma DecodeEncodedFrame(header: Header, voltage: Option<uint8>, temperature: Option<int16>)
    ensures DecodeAt(EncodeFrame(header, voltage, temperature), 0) == Decoded(
      Some(header.Code()),
      if voltage.None? || voltage.value == 0xFF then Null else Tenths(voltage.value),
      if temperature.None? then Tenths(-1)
      else if temperature.value == 0x7FFF then Null
      else Tenths(temperature.value))
  {
    var frame := EncodeFrame(header, voltage, temperature);
    if temperature.Some? {
      S16RoundTrip(temperature.value);
      assert S16Value(frame[2], frame[3]) == temperature.value;
    } else {
      assert S16Value(frame[2], frame[3]) == -1;
    }
  }

  /** On any four bytes read from offset 0, the temperature is `null` exactly for 7F FF. */
  lemma NullTemperatureOnlyFor7FFF(bytes: seq<uint8>)
    requires |bytes| == 4
    ensures DecodeAt(bytes, 0).temperature == Null <==> bytes[2] == 0x7F && bytes[3] == 0xFF
  {
    var t := S16Value(bytes[2], bytes[3]);
    S16Encodes(bytes[2], bytes[3]);
    if t == 0x7FFF {
      assert TemperatureHigh(t) == 0x7F && TemperatureLow(t) == 0xFF;
    }
  }

  /** The firmware's "no temperature" frame never decodes to `null`: it decodes to -0.1. */
  lemma AbsentTemperatureDecodesAsMinusOneTenth(header: Header, voltage: Option<uint8>)
    ensures DecodeAt(EncodeFrame(header, voltage, None), 0).temperature == Tenths(-1)
    ensures DecodeAt(EncodeFrame(header, voltage, None), 0) == DecodeAt(EncodeFrame(header, voltage, Some(-1)), 0)
  {
    DecodeEncodedFrame(header, voltage, None);
    DecodeEncodedFrame(header, voltage, Some(-1));
  }

  /** With the cursor at or past the end of the buffer nothing of the frame is read: the header
      is `undefined`, the voltage `NaN` and the temperature 0. */
  lemma StaleCursorReadsNothing(bytes: seq<uint8>, cursor: nat)
    requires cursor >= |bytes|
    ensures DecodeAt(bytes, cursor) == Decoded(None, NaN, Tenths(0))
  {
  }

  /** Two uplinks through one loaded script: the first is decoded from offset 0, the second
      from offset 4, so a second 4-byte frame is not read at all. */
  method TwoUplinks(first: seq<uint8>, second: seq<uint8>) returns (d1: Decoded, d2: Decoded)
    requires |second| == 4
    ensures d1 == DecodeAt(first, 0)
    ensures d2 == Decoded(None, NaN, Tenths(0))
  {
    var script := new DecoderModule();
    d1 := script.Decoder(first, 1);
    d2 := script.Decoder(second, 1);
    StaleCursorReadsNothing(second, 4);
  }
}
