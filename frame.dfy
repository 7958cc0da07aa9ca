/** The 4-byte uplink frame built by `send_lora_packet`, and its `$SEND:` hex echo.
    Readings enter already scaled to integer tenths: the voltage as `ceil(v * 10)`
    converted to `uint8_t`, the temperature as `(int16_t)(t * 10)`. */
module Frame {
  import opened Primitives

  /** The first byte of every frame: why the frame was sent. */
  datatype Header = Boot | Update | ButtonClick | ButtonHold {

    /** HEADER_BOOT = 0x00, HEADER_UPDATE = 0x01, HEADER_BUTTON_CLICK = 0x02, HEADER_BUTTON_HOLD = 0x03. */
    function Code(): (b: uint8)
      ensures b < 4
      ensures b == 0x00 <==> Boot?
      ensures b == 0x01 <==> Update?
      ensures b == 0x02 <==> ButtonClick?
    {
      match this
      case Boot => 0x00
      case Update => 0x01
      case ButtonClick => 0x02
      case ButtonHold => 0x03
    }
  }

  /** The "no data" byte of the voltage field and of both temperature bytes. */
  const Sentinel: uint8 := 0xFF

  /** Byte 1: the scaled voltage average when the stream holds one, else the sentinel.
      A present reading of 255 tenths (25.5 V) is the same byte as "absent". */
  function VoltageByte(voltage: Option<uint8>): (b: uint8)
    ensures b == Sentinel <==> voltage.None? || voltage.value == 0xFF
    ensures voltage.Some? ==> b == voltage.value
  {
    if voltage.Some? then voltage.value else Sentinel
  }

  /** `t >> 8` on a promoted `int16_t`: an arithmetic shift, i.e. division rounding down. */
  function ArithmeticShiftRight8(t: int16): (q: int)
    ensures -0x80 <= q < 0x80
    ensures q * 0x100 <= t < q * 0x100 + 0x100
  {
    t / 0x100
  }

  /** The high byte `(uint8_t)(t >> 8)` of the temperature field. */
  function TemperatureHigh(t: int16): (hi: uint8)
    ensures hi == (t % 0x10000) / 0x100
  {
    ToUint8(ArithmeticShiftRight8(t))
  }

  /** The low byte `(uint8_t)t` of the temperature field. */
  function TemperatureLow(t: int16): (lo: uint8)
    ensures lo == (t % 0x10000) % 0x100
  {
    ToUint8(t)
  }

  /** Bytes 2 and 3: big-endian two's complement of the scaled temperature, or two sentinels. */
  function TemperatureBytes(temperature: Option<int16>): (r: seq<uint8>)
    ensures |r| == 2
    ensures r == [Sentinel, Sentinel] <==> temperature.None? || temperature.value == -1
  {
    if temperature.Some? then
      var t := temperature.value;
      TwosComplementHighByte(t);
      [TemperatureHigh(t), TemperatureLow(t)]
    else
      [Sentinel, Sentinel]
  }

  /** The frame handed to the radio: header, voltage, temperature high, temperature low. */
  function EncodeFrame(header: Header, voltage: Option<uint8>, temperature: Option<int16>): (frame: seq<uint8>)
    ensures |frame| == 4
  {
    [header.Code(), VoltageByte(voltage)] + TemperatureBytes(temperature)
  }

  /** The high byte carries the sign bit, and both bytes are 0xFF only for -1. */
  lemma TwosComplementHighByte(t: int16)
    ensures TemperatureHigh(t) >= 0x80 <==> t < 0
    ensures TemperatureHigh(t) == 0xFF && TemperatureLow(t) == 0xFF <==> t == -1
  {
    var q := ArithmeticShiftRight8(t);
    if t < 0 {
      assert q < 0;
      assert TemperatureHigh(t) == q + 0x100;
    } else {
      assert TemperatureHigh(t) == q;
    }
  }

  /** The two temperature bytes read as a big-endian unsigned number are `t` modulo 2^16. */
  lemma TemperatureBytesTwosComplement(t: int16)
    ensures TemperatureHigh(t) * 0x100 + TemperatureLow(t) == t % 0x10000
  {
    var q := ArithmeticShiftRight8(t);
    assert TemperatureLow(t) == t - q * 0x100;
    if t < 0 {
      assert TemperatureHigh(t) == q + 0x100;
      assert t % 0x10000 == t + 0x10000;
    } else {
      assert TemperatureHigh(t) == q;
      assert t % 0x10000 == t;
    }
  }

  // --- The diagnostic echo: `sprintf(tmp + i * 2, "%02x", buffer[i])` for every byte.

  predicate IsLowerHexDigit(c: char) {
    '0' <= c <= '9' || 'a' <= c <= 'f'
  }

  /** One lowercase hexadecimal digit. */
  function HexDigit(n: int): (c: char)
    requires 0 <= n < 16
    ensures IsLowerHexDigit(c)
    ensures HexDigitValue(c) == Some(n)
  {
    if n < 10 then ('0' as int + n) as char else ('a' as int + n - 10) as char
  }

  /** The value of a lowercase hexadecimal digit; anything else is not one. */
  function HexDigitValue(c: char): (n: Option<int>)
    ensures n.Some? <==> IsLowerHexDigit(c)
    ensures n.Some? ==> 0 <= n.value < 16
  {
    if '0' <= c <= '9' then Some(c as int - '0' as int)
    else if 'a' <= c <= 'f' then Some(c as int - 'a' as int + 10)
    else None
  }

  /** `%02x` of one byte: two digits, high nibble first. */
  function HexByte(b: uint8): (s: string)
    ensures |s| == 2
  {
    [HexDigit(b / 16), HexDigit(b % 16)]
  }

  /** The echo text for a run of bytes, built byte by byte as the firmware's loop does. */
  function HexString(bytes: seq<uint8>): (s: string)
    ensures |s| == 2 * |bytes|
    ensures forall i :: 0 <= i < |s| ==> IsLowerHexDigit(s[i])
    ensures forall i :: 0 <= i < |bytes| ==> s[2 * i] == HexDigit(bytes[i] / 16) && s[2 * i + 1] == HexDigit(bytes[i] % 16)
  {
    if bytes == [] then [] else HexString(bytes[..|bytes| - 1]) + HexByte(bytes[|bytes| - 1])
  }

  /** Reads back a string of lowercase hexadecimal digit pairs. */
  function ParseHex(s: string): Option<seq<uint8>>
    decreases |s|
  {
    if s == [] then Some([])
    else if |s| < 2 then None
    else
      var hi := HexDigitValue(s[|s| - 2]);
      var lo := HexDigitValue(s[|s| - 1]);
      var prefix := ParseHex(s[..|s| - 2]);
      if hi.None? || lo.None? || prefix.None? then None
      else Some(prefix.value + [hi.value * 16 + lo.value])
  }

  /** Appending a pair of hex digits to parseable text appends the byte they spell. */
  lemma ParseHexAppend(s: string, hi: char, lo: char)
    requires ParseHex(s).Some? && IsLowerHexDigit(hi) && IsLowerHexDigit(lo)
    ensures ParseHex(s + [hi, lo]) == Some(ParseHex(s).value + [HexDigitValue(hi).value * 16 + HexDigitValue(lo).value])
  {
    var t := s + [hi, lo];
    assert t[..|t| - 2] == s;
  }

  /** The echo loses nothing: reading the hex text back gives the frame. */
  lemma {:induction false} HexStringRoundTrip(bytes: seq<uint8>)
    ensures ParseHex(HexString(bytes)) == Some(bytes)
  {
    if bytes != [] {
      var init, last := bytes[..|bytes| - 1], bytes[|bytes| - 1];
      var hi, lo := last / 16, last % 16;
      assert HexString(bytes) == HexString(init) + [HexDigit(hi), HexDigit(lo)];
      HexStringRoundTrip(init);
      ParseHexAppend(HexString(init), HexDigit(hi), HexDigit(lo));
      assert hi * 16 + lo == last;
      assert init + [last] == bytes;
    }
  }

  /** Only strings of hex digit pairs parse, and each parses to a byte run half its length. */
  lemma {:induction false} ParseHexShape(s: string)
    requires ParseHex(s).Some?
    ensures |s| == 2 * |ParseHex(s).value|
    ensures forall i :: 0 <= i < |s| ==> IsLowerHexDigit(s[i])
    decreases |s|
  {
    if s != [] {
      ParseHexShape(s[..|s| - 2]);
      assert s == s[..|s| - 2] + [s[|s| - 2], s[|s| - 1]];
    }
  }
}
