# LoRa DS18B20 sensor node with LCD: a verified model

This project models the application logic of a battery-powered HARDWARIO Tower node. The
node has a DS18B20 temperature probe, a battery monitor, an LCD module with two buttons and
a LoRa radio. The model also covers the network server's payload decoder. It has three parts.

- **Wire frame.** `send_lora_packet` writes a 4-byte frame into a static buffer, one
  `len++` at a time: header, voltage in tenths (or the sentinel `0xFF`), and temperature in
  tenths as big-endian two's complement (or `0xFF 0xFF`). The frame goes to the radio and
  is echoed as lowercase hex on the AT console (`frame.dfy`, `Firmware.App.FillBuffer`,
  `Firmware.App.FormatEcho`).
- **Payload decoder.** `Decoder`, `u8` and `s16` from `decoder-ttn.js`, including the
  module-level `cursor` that is never reset (`ttn_decoder.dfy`).
- **Application state.** The globals `header`, `active_state`, `sleep_mode_task_id`, the
  DS18B20 update interval, the last shown reading and the two capacity-1 averaging streams.
  They live in the class `Firmware.App`. The driver event handlers and the self-replanning
  measurement tasks are its methods. They run over an abstract cooperative scheduler
  (`scheduler.dfy`): a map from task id to a function and the tick it is next due.

`src/application.c` (current `twr_` SDK names) and `app/application.c` (legacy `bc_` names)
differ only in the SDK prefix, the commented-out log init on line 316 and whitespace (an
extra blank line after line 343 of `app/application.c`). Their line numbers agree up to
line 343, so one model serves both files.

The object invariant `Firmware.App.Valid` holds between events. It says:

- every frame sent so far is 4 bytes long;
- only the first frame can carry BOOT, and after the first send the header is no longer BOOT;
- both measurement tasks stay registered;
- the DS18B20 interval is 1000 exactly while active;
- a sleep task is pending exactly while active, and that task is `sleep_mode_task_id`.

Every event handler, and every `Run*` method that fires a task, requires `Valid` and
ensures it.

The model describes the outside world as a log of effects: radio sends, AT console lines,
LCD LED pulses, LCD off, LCD data prints. Driver answers are parameters: whether a
measurement could be started, whether the radio is ready, and the reading an update event
carries. Readings enter the model already scaled to integer tenths:

- the voltage as `ceil(v * 10)` in `0..255`;
- the temperature as `(int16_t)(t * 10)`;
- `None` stands for NaN.

Two properties of the sentinels in the code:

- The temperature sentinel `0xFF 0xFF` is exactly the encoding of −1 tenth
  (`Frame.TwosComplementHighByte`).
- The decoder tests for `0x7FFF`, so a frame without a temperature decodes as −0.1
  (`TtnDecoder.AbsentTemperatureDecodesAsMinusOneTenth`).

Two behaviours of the code that the model exhibits:

- `switch_to_sleep_mode` does not park the DS18B20 task. When that task is retrying (its
  measurement did not start, or the radio was busy) as the sleep timeout fires, it stays
  due, fires while the node is asleep, and can send a frame: it sends once its measurement
  starts and the radio is ready. `Firmware.SendWhileAsleep` shows this for a radio that is
  busy from the first press until tick 30000: the DS18B20 task retries every 100 ticks,
  and at tick 30100, with the node asleep, it sends `00 FF FF FF`. That scenario delivers
  no DS18B20 or battery update event, although the measurements it starts would raise
  them, so both averages are still empty and the frame carries two "absent" fields.
- An LCD press while active, with the radio busy, drops that report. The send path
  re-plans only the current task. Under the model's rule (see "## Left out") that event
  handlers run with no current task, nothing is re-planned (`Firmware.App.ReportNow`).

## Model

| member | source | states |
|---|---|---|
| Primitives.ToUint8 | src/application.c:220-221 | Storing an integer into a `uint8_t` keeps it modulo 256. |
| Frame.Header.Code | src/application.c:45-51 | BOOT, UPDATE, BUTTON_CLICK and BUTTON_HOLD are the bytes 0x00, 0x01, 0x02, 0x03, and each byte identifies its header. |
| Frame.VoltageByte | src/application.c:206-210 | Byte 1 is the retained voltage in tenths, or 0xFF when there is none. It is 0xFF exactly when the voltage is absent or is 255 tenths, so 25.5 V is indistinguishable from "absent". |
| Frame.ArithmeticShiftRight8 | src/application.c:220 | `t >> 8` on an `int16_t` lies in [−128, 127] and is `t` divided by 256 rounded down. |
| Frame.TemperatureHigh | src/application.c:220 | `(uint8_t)(t >> 8)` is the high byte of the 16-bit two's-complement pattern of `t`. |
| Frame.TemperatureLow | src/application.c:221 | `(uint8_t)t` is the low byte of the 16-bit two's-complement pattern of `t`. |
| Frame.TemperatureBytes | src/application.c:212-227 | Bytes 2–3 are two bytes. They are `FF FF` exactly when the temperature is absent or is −1 tenth. |
| Frame.EncodeFrame | src/application.c:201-227 | The frame is always exactly 4 bytes. |
| Frame.TwosComplementHighByte | src/application.c:218-221 | The high byte has bit 7 set exactly for negative temperatures. Both bytes are 0xFF exactly for t = −1, the "absent" pattern. |
| Frame.TemperatureBytesTwosComplement | src/application.c:218-221 | `hi * 256 + lo ≡ t (mod 65536)`: the two bytes are the big-endian two's complement of `t`. |
| Frame.HexDigit | src/application.c:235 | Each `%02x` digit is a lowercase hex digit that reads back as its value. |
| Frame.HexDigitValue | src/application.c:235 | A character has a hex value exactly when it is a lowercase hex digit, and the value is below 16. |
| Frame.HexByte | src/application.c:235 | `%02x` of one byte is two characters. |
| Frame.HexString | src/application.c:231-236 | The echo of n bytes is 2n lowercase hex characters. Characters 2i and 2i+1 are the high and low nibble of byte i. |
| Frame.ParseHexAppend | src/application.c:233-236 | Appending two hex digits to a parseable echo appends the byte they spell. |
| Frame.HexStringRoundTrip | src/application.c:231-238 | Parsing the echo gives the sent bytes back: the echo loses nothing. |
| Frame.ParseHexShape | src/application.c:231-238 | Only even-length strings of lowercase hex digits parse as an echo, and they parse to half as many bytes. |
| TtnDecoder.ByteAt | decoder-ttn.js:18-23 | `buffer.slice(i)[0]` is byte i inside the buffer and `undefined` past its end. |
| TtnDecoder.BitOperand | decoder-ttn.js:27 | `undefined` counts as 0 in `|` and `<<`. A byte counts as itself. |
| TtnDecoder.S16Value | decoder-ttn.js:25-31 | The result is an int16. It is negative exactly when bit 7 of the first byte is set, and it is `b0 * 256 + b1` modulo 65536. |
| TtnDecoder.VoltageField | decoder-ttn.js:13 | The voltage is `null` exactly for byte 0xFF and NaN exactly for a missing byte. Otherwise it is the byte in tenths. |
| TtnDecoder.TemperatureField | decoder-ttn.js:14 | The temperature is `null` exactly when `s16` gave 0x7FFF. Otherwise it is the value in tenths. It is never NaN. |
| TtnDecoder.DecodeAt | decoder-ttn.js:4-16 | The header is present exactly when the cursor is inside the buffer, and the voltage is NaN exactly when the byte after it is missing. The temperature is never NaN. With 4 bytes from the cursor, the header is the byte at the cursor and the temperature field is read from `s16` of the last two. |
| TtnDecoder.DecoderModule.constructor | decoder-ttn.js:1-2 | When the script loads, the cursor is 0. |
| TtnDecoder.DecoderModule.U8 | decoder-ttn.js:18-23 | `u8` returns the byte at the cursor or `undefined`, and advances the cursor by 1. |
| TtnDecoder.DecoderModule.S16 | decoder-ttn.js:25-34 | `s16` returns the two's-complement value of the two bytes at the cursor, and advances the cursor by 2. |
| TtnDecoder.DecoderModule.Decoder | decoder-ttn.js:4-16 | One call stores the bytes, consumes exactly 4 positions, and decodes from the cursor it found, not from 0. |
| TtnDecoder.S16RoundTrip | decoder-ttn.js:25-34 | For every int16 `t`, `s16` of the firmware's two bytes for `t` is `t`. |
| TtnDecoder.S16Encodes | decoder-ttn.js:25-34 | Every byte pair is the firmware's encoding of its `s16` value, so the encoding is a bijection. |
| TtnDecoder.DecodeEncodedFrame | decoder-ttn.js:4-16 | A firmware frame decoded from offset 0 gives: the header byte unchanged; the voltage in tenths, or `null` when absent or 255; the temperature in tenths, or `null` for 0x7FFF, or −1 tenth when absent. |
| TtnDecoder.NullTemperatureOnlyFor7FFF | decoder-ttn.js:14 | On any 4 bytes, the temperature decodes to `null` exactly for bytes `7F FF`. |
| TtnDecoder.AbsentTemperatureDecodesAsMinusOneTenth | decoder-ttn.js:14 | A frame without a temperature decodes to −0.1, the same as a frame carrying −1 tenth. |
| TtnDecoder.StaleCursorReadsNothing | decoder-ttn.js:18-34 | With the cursor at or past the end, the header is `undefined`, the voltage NaN and the temperature 0. |
| TtnDecoder.TwoUplinks | decoder-ttn.js:1-16 | In one loaded script, the second 4-byte uplink is not read at all. |
| Scheduler.Replan | src/application.c:146 | Re-planning keeps the registered ids and their functions and changes only the due tick of that id. An unregistered id is a no-op. |
| Scheduler.ReplanTwice | src/application.c:61 | A second re-plan of the same task overrides the first. |
| Scheduler.PrefixBound | src/application.c:163 | A table that holds every id below n has at least n entries, so a free slot always exists. |
| Scheduler.LeastFreeId | src/application.c:163 | `register` takes an id that is free, and every smaller id is taken, so the id is at most the number of registered tasks. |
| Scheduler.Scheduler.constructor | src/application.c:314-321 | The modelled table, which holds the application's tasks only, starts empty at tick 0 with no current task. |
| Scheduler.Scheduler.Register | src/application.c:163 | The new id was free and every smaller id was taken, so it is at most the number of registered tasks. It now holds the function and due tick. Nothing else changes. |
| Scheduler.Scheduler.Unregister | src/application.c:159 | The id is removed, and the other tasks are unchanged. |
| Scheduler.Scheduler.PlanNow | src/application.c:146 | That task is due at the current tick. |
| Scheduler.Scheduler.PlanCurrentNow | src/application.c:61 | The running task, if any, is due at the current tick. |
| Scheduler.Scheduler.PlanCurrentRelative | src/application.c:196 | The running task, if any, is due `delay` ticks from now. |
| Scheduler.Scheduler.AdvanceTo | src/application.c:163 | Time moves forward, but never past a tick at which a registered task is due and has not fired. The table stays the same. |
| Scheduler.Scheduler.Enter | src/application.c:57-76 | A task that fires is parked and becomes the current task. |
| Scheduler.Scheduler.Leave | src/application.c:57-76 | When a task function returns, no task is current. |
| Firmware.SentFramesAppend | src/application.c:229 | The frames sent by two stretches of activity are the frames of the first followed by the frames of the second. |
| Firmware.NoSendNoFrames | src/application.c:229 | A log without a radio send holds no frame. |
| Firmware.SendEffects | src/application.c:229-239 | A successful send hands the frame to the radio first, then prints one console line, then pulses the LED for 500. |
| Firmware.SendEchoParses | src/application.c:231-237 | The console line of a send is `$SEND: ` followed by text that parses back to the frame. |
| Firmware.SendEffectsSendOneFrame | src/application.c:229-239 | A successful send hands exactly one frame to the radio. |
| Firmware.Feed | src/application.c:121 | A capacity-1 stream keeps the newest sample. It holds a value once any sample has been fed. A NaN sample leaves the stream as it was. |
| Firmware.HeaderInvariantAfterSend | src/application.c:204-241 | A send appends one 4-byte frame headed by the current header and leaves the header at UPDATE, so the header invariant is kept. |
| Firmware.HeaderInvariantAfterEffect | src/application.c:145-185 | LED pulses, LCD prints and LCD off send no frame and keep the header invariant. |
| Firmware.ReplanKeepsPendingSleep | src/application.c:146-152 | Re-planning the battery or the DS18B20 task keeps the one pending sleep task. |
| Firmware.DisarmSleep | src/application.c:159 | Firing or unregistering the pending sleep task leaves none pending. |
| Firmware.ArmSleep | src/application.c:163 | A sleep task registered under a fresh id, while none is pending, becomes the only pending one. |
| Firmware.App.Init | app/application.c:314-367 | After init the header is BOOT and the node is inactive. The DS18B20 task is registered parked and then the battery task due at 1000, taking ids 0 and 1 of the modelled table. The LCD is off. Both streams are empty. `Valid` holds. |
| Firmware.App.FillBuffer | src/application.c:201-227 | Filling the buffer with `len++` writes exactly the frame `EncodeFrame(header, voltage, temperature)`. |
| Firmware.App.FormatEcho | src/application.c:231-236 | After the loop, `tmp` holds the 8-character hex echo of the buffer followed by NUL. |
| Firmware.App.SendLoraPacket | src/application.c:192-242 | Radio busy: only the current task is re-planned 100 ticks on, and nothing is sent or changed. Radio ready: the frame is built from the old header, sent, echoed, and the LED pulses, in that order. The header becomes UPDATE. The scheduler table is untouched. |
| Firmware.App.ButtonEventHandler | src/application.c:125-137 | CLICK sets BUTTON_CLICK and HOLD sets BUTTON_HOLD. Other button events change nothing. |
| Firmware.App.BatteryEventHandler | src/application.c:114-123 | Every UPDATE feeds the voltage stream, active or not. Other events change nothing. |
| Firmware.App.Ds18b20EventHandler | src/application.c:167-188 | The shown reading is NaN after every event and the new reading after an UPDATE. Only an UPDATE while active prints to the LCD and feeds the temperature stream. |
| Firmware.App.LcdEventHandler | src/application.c:140-165 | Any press leaves the node active and a sleep task due at now + 30000 under a fresh id. From sleep, the battery and DS18B20 tasks are planned now, the interval becomes 1000, and only the LED pulses. When active, the battery task is planned now, a frame is sent, and the old sleep task is unregistered. Other LCD events change nothing, and the frame buffer and echo text change only when a frame is sent. |
| Firmware.App.PulseAndPlanBattery | src/application.c:145-146 | Every press pulses the LED for 500 and plans the battery task now. |
| Firmware.App.PressWhileAsleep | src/application.c:148-163 | From sleep: DS18B20 interval 1000, its task planned now, active, and a new sleep task at now + 30000. Each wake-up leaves one more registered task. |
| Firmware.App.PressWhileActive | src/application.c:155-163 | When active: the frame is sent from the old header, the previous sleep task is unregistered, and a new one is due at now + 30000. With the radio busy the buffer and echo text are kept. |
| Firmware.App.ReportAndRearm | src/application.c:155-163 | The send, then the pending sleep task replaced by one due at now + 30000 under a fresh id, keeping `Valid`. |
| Firmware.App.ArmSleepTask | src/application.c:163 | The sleep task registered 30000 ticks on becomes the one pending sleep task. |
| Firmware.App.ReportNow | src/application.c:157-159 | Sending from the LCD handler, which runs with no current task, re-plans nothing. The previous sleep task is removed, and the header invariant is kept. With the radio busy nothing else changes. |
| Firmware.App.SwitchToSleepMode | src/application.c:79-84 | Inactive, DS18B20 interval infinite, LCD off. Nothing else changes. |
| Firmware.App.BatteryMeasureTask | app/application.c:57-63 | The battery task re-plans itself now exactly when the measurement could not be started. |
| Firmware.App.Ds18b20MeasureTask | app/application.c:65-76 | If the measurement cannot start, the DS18B20 task is re-planned now and nothing is sent. Otherwise `send_lora_packet` runs on the averages held before the new reading. The buffer and echo text change only when a frame is sent. |
| Firmware.App.RunTask | app/application.c:57-84 | A due task fires and `Valid` is kept. The header only stays or becomes UPDATE. The sleep task makes the node inactive. The measurement tasks stay parked unless they re-planned themselves. Only a DS18B20 task that sends changes the buffer and echo text. |
| Firmware.App.RunBatteryMeasure | src/application.c:57-63 | The battery task ends parked, or due now when the measurement did not start. |
| Firmware.App.RunDs18b20Measure | src/application.c:65-76 | The DS18B20 task ends due now (not started), due in 100 ticks (radio busy), or parked after sending one frame. Without a send the log, header, buffer and echo text are kept. |
| Firmware.App.RunSleepMode | src/application.c:79-84 | The due sleep task puts the node to sleep, and no sleep task is left pending. |
| Firmware.AtMostOnePendingSleep | src/application.c:140-165 | Between events at most one sleep task is pending, and only while active. |
| Firmware.BootAndPress | src/application.c:140-165 | Boot and a first press leave the node active with header BOOT, exactly three tasks in the modelled table (the DS18B20 task with model id 0 and the battery task with model id 1, both due at 0, and the sleep task due at 30000), and only LCD off and one LED pulse in the log. |
| Firmware.BootAndFirstReport | src/application.c:57-76 | The two tasks due at tick 0 fire in the order of their model ids: the DS18B20 task sends `00 FF FF FF`, then the battery measurement starts. Both end parked, and the header is UPDATE. |
| Firmware.SecondReport | src/application.c:140-165 | After readings 21.4 °C and 3.7 V, a second press sends `01 25 00 D6` and makes the battery task due again. The sleep task is due at 30000. |
| Firmware.BootScenario | src/application.c:79-84 | The run sends `00 FF FF FF` and then `01 25 00 D6`. After the battery task fires, the clock reaches 30000, the sleep task fires and the node is inactive. |
| Firmware.BusyAfterPress | src/application.c:65-76 | After boot and a press, the DS18B20 task finds the radio busy and is due at 100. The battery task starts its measurement and is parked. |
| Firmware.RetryWhileBusy | src/application.c:192-199 | With the radio busy, the DS18B20 task fires every 100 ticks and re-plans itself 100 ticks on. By tick 29900 nothing has been sent, and it is due at 30000 together with the sleep task. |
| Firmware.RetryBeforeSleep | src/application.c:65-84 | At tick 30000 the DS18B20 task fires first (lower model id) and re-plans itself to 30100. Then the sleep task puts the node to sleep. No frame has been sent, and the DS18B20 task is still due at 30100. |
| Firmware.SendWhileAsleep | src/application.c:65-84 | At tick 30100 the DS18B20 task fires with the node asleep and sends `00 FF FF FF`, the only frame in the log. |

## Left out

- Float arithmetic: readings enter in tenths. `ceil(v * 10)` and `(int16_t)(t * 10)` are
  not modelled, including the undefined behaviour of out-of-range conversions in C. The
  decoder's `/ 10` is kept as a count of tenths.
- LCD rendering in `lcd_print_data` (gfx calls, fonts, PLL, `%.1f`) is one `LcdPrintData`
  effect carrying the reading. The display-ready check is not modelled.
- `lora_callback` is not modelled: its LED modes, its join messages, and the battery
  re-plan 20 ticks after a send starts. These react to radio driver events.
- The AT commands `at_send` and `at_status` are not modelled. `at_send` plans raw task id 0,
  whose meaning depends on the registration order inside the SDK.
- The rest of `application_init` is not modelled: driver initialisation, handler
  registration, and the 2000-tick pulse of the board LED.
- Task ids: the modelled table holds only the application's own tasks and starts empty at
  `application_init`, so ids 0, 1 and 2 are the model's, not the firmware's. Tasks that the
  SDK and the drivers register (for instance during `twr_ds18b20_init_single`,
  src/application.c:318) are not modelled. The order in which the scenarios fire tasks due
  at the same tick follows the model's ids.
- SDK scheduler: only the behaviour the application relies on is modelled. Register takes
  the lowest free id. A firing task is parked, not removed. Event handlers run with no
  current task. The pool of tasks is unbounded. The SDK's fixed pool size is not modelled, so a
  failing `register` is not either, although each wake-up adds one registered task.
- SDK data streams are modelled with capacity 1, so the average is the last retained
  sample. A NaN sample is taken to be ignored; that SDK code is not part of this model.
  The handlers do feed NaN: `voltage` stays NaN when `twr_module_battery_get_voltage`
  fails (src/application.c:118-121), and so does `value` in the DS18B20 handler. If the SDK
  stream instead resets on NaN, the next frame carries `FF` or `FF FF` in that field.
- `Frame.ArithmeticShiftRight8` takes `>>` on a negative promoted `int16_t` to be an
  arithmetic shift. C leaves this to the compiler; GCC documents an arithmetic
  shift.
- Scheduler: `Firmware.App.RunTask` does not require that tasks due in the same pass fire
  in id order. The scenarios fire them in the order of their model ids.
- The scheduler's `plan_relative` is not modelled: its only caller, `lora_callback`, is
  left out.
- The DS18B20 update interval starts as "never". The driver's own default before the first
  press is not part of this model.
- DS18B20 1-Wire, battery ADC and radio modem drivers are reduced to the booleans and
  readings they return.
- `button_event_handler` is modelled, but `application_init` never registers it. Firmware
  built from these files therefore only sends headers 0x00 and 0x01
  (`Firmware.App.RunTask` and `Firmware.App.LcdEventHandler` keep the header or set UPDATE).
- The LoRaWAN network server may load the decoder once or once per uplink. The model keeps
  one loaded script, and `TtnDecoder.TwoUplinks` shows what a reused script does.
