/** The application of the sensor node: its globals, the driver event handlers, the
    self-replanning measurement tasks, the sleep timeout and `send_lora_packet`.
    Drivers are reduced to what they report: whether a measurement could be started,
    whether the radio is ready, and the reading an update event carries (already scaled
    to tenths; `None` is NaN). */
module Firmware {
  import opened Primitives
  import opened Frame
  import opened Scheduler

  /** MEASURE_INTERVAL: the DS18B20 update period while active. */
  const MeasureInterval: nat := 1000
  /** The sleep timeout planned by every LCD press. */
  const SleepDelay: nat := 30000
  /** The re-plan delay of a task that found the radio busy. */
  const RadioBusyRetry: nat := 100
  /** The LCD LED pulse length, on a press and after a send. */
  const PulseLength: nat := 500
  /** The battery task's first due tick. */
  const FirstBatteryMeasure: nat := 1000

  datatype ButtonEvent = ButtonPress | ButtonRelease | ButtonClickEvent | ButtonHoldEvent

  /** The LCD module's button events; only the two presses matter here. */
  datatype LcdEvent = LcdLeftPress | LcdRightPress | LcdOtherEvent

  datatype Ds18b20Event = Ds18b20Update | Ds18b20Error

  datatype BatteryEvent = BatteryUpdate | BatteryOtherEvent

  /** What the application does to the outside world, in order. */
  datatype Effect =
    | RadioSend(frame: seq<uint8>)
    | AtPrint(line: string)
    | LcdLedPulse(duration: nat)
    | LcdOff
    | LcdPrintData(temperature: Option<int16>)

  /** The frames handed to the radio, oldest first. */
  function SentFrames(log: seq<Effect>): seq<seq<uint8>> {
    if log == [] then []
    else SentFrames(log[..|log| - 1]) + (if log[|log| - 1].RadioSend? then [log[|log| - 1].frame] else [])
  }

  lemma {:induction false} SentFramesAppend(log: seq<Effect>, tail: seq<Effect>)
    ensures SentFrames(log + tail) == SentFrames(log) + SentFrames(tail)
    decreases |tail|
  {
    if tail != [] {
      var init := tail[..|tail| - 1];
      assert (log + tail)[..|log + tail| - 1] == log + init;
      assert (log + tail)[|log + tail| - 1] == tail[|tail| - 1];
      SentFramesAppend(log, init);
    } else {
      assert log + tail == log;
    }
  }

  /** A log without a radio send holds no frame. */
  lemma {:induction false} NoSendNoFrames(log: seq<Effect>)
    requires forall i :: 0 <= i < |log| ==> !log[i].RadioSend?
    ensures SentFrames(log) == []
  {
    if log != [] {
      NoSendNoFrames(log[..|log| - 1]);
    }
  }

  /** What a successful `send_lora_packet` emits: the frame, its `$SEND:` echo, an LED pulse. */
  function SendEffects(frame: seq<uint8>): (effects: seq<Effect>)
    ensures |effects| == 3 && effects[0] == RadioSend(frame) && effects[1].AtPrint?
    ensures effects[2] == LcdLedPulse(PulseLength)
  {
    [RadioSend(frame), AtPrint("$SEND: " + HexString(frame)), LcdLedPulse(PulseLength)]
  }

  /** The console line of a send is `$SEND: ` followed by text that parses back to the frame. */
  lemma SendEchoParses(frame: seq<uint8>)
    ensures var line := SendEffects(frame)[1].line;
            |line| >= 7 && line[..7] == "$SEND: " && ParseHex(line[7..]) == Some(frame)
  {
    HexStringRoundTrip(frame);
    var line := SendEffects(frame)[1].line;
    assert line[7..] == HexString(frame);
  }

  lemma SendEffectsSendOneFrame(frame: seq<uint8>)
    ensures SentFrames(SendEffects(frame)) == [frame]
  {
    var e := SendEffects(frame);
    var e2 := e[..|e| - 1];
    var e1 := e2[..|e2| - 1];
    assert e1 == [RadioSend(frame)];
    assert e1[..|e1| - 1] == [];
    assert SentFrames(e1) == [frame];
    assert SentFrames(e2) == SentFrames(e1);
    assert SentFrames(e) == SentFrames(e2);
  }

  /** A stream of capacity 1 keeps the newest sample, so its average is that sample;
      a NaN sample is not retained. */
  function Feed<T>(stream: Option<T>, sample: Option<T>): (r: Option<T>)
    ensures r.Some? <==> stream.Some? || sample.Some?
    ensures sample.Some? ==> r == sample
    ensures sample.None? ==> r == stream
  {
    if sample.Some? then sample else stream
  }

  // --- The header lifecycle

  /** Every frame sent is 4 bytes, BOOT heads at most the first of them, and once a frame
      has been sent the header is no longer BOOT. */
  ghost predicate HeaderInvariant(log: seq<Effect>, header: Header) {
    var frames := SentFrames(log);
    && (forall k :: 0 <= k < |frames| ==> |frames[k]| == 4)
    && (forall k :: 1 <= k < |frames| ==> frames[k][0] != Boot.Code())
    && (frames != [] ==> !header.Boot?)
  }

  /** A send appends one 4-byte frame headed by the current header and leaves UPDATE. */
  lemma HeaderInvariantAfterSend(log: seq<Effect>, header: Header, voltage: Option<uint8>, temperature: Option<int16>)
    requires HeaderInvariant(log, header)
    ensures HeaderInvariant(log + SendEffects(EncodeFrame(header, voltage, temperature)), Update)
    ensures SentFrames(log + SendEffects(EncodeFrame(header, voltage, temperature)))
         == SentFrames(log) + [EncodeFrame(header, voltage, temperature)]
  {
    var frame := EncodeFrame(header, voltage, temperature);
    SentFramesAppend(log, SendEffects(frame));
    SendEffectsSendOneFrame(frame);
  }

  /** Any effect other than a radio send keeps the frames, hence the invariant. */
  lemma HeaderInvariantAfterEffect(log: seq<Effect>, header: Header, effect: Effect)
    requires HeaderInvariant(log, header) && !effect.RadioSend?
    ensures HeaderInvariant(log + [effect], header)
    ensures SentFrames(log + [effect]) == SentFrames(log)
  {
    SentFramesAppend(log, [effect]);
    assert [effect][..0] == [];
  }

  // --- The activity state machine

  /** A sleep task that is registered and due at some tick. */
  ghost predicate PendingSleep(tasks: map<TaskId, Entry>, id: TaskId) {
    id in tasks && tasks[id].job == SleepMode && tasks[id].due.At?
  }

  /** A sleep task is pending exactly while active, and then it is `sleepTaskId`. */
  ghost predicate OnePendingSleep(tasks: map<TaskId, Entry>, active: bool, sleepTaskId: TaskId) {
    forall id :: PendingSleep(tasks, id) <==> active && id == sleepTaskId
  }

  /** Re-planning a task that is not a sleep task leaves the pending sleep tasks alone. */
  lemma ReplanKeepsPendingSleep(tasks: map<TaskId, Entry>, id: TaskId, due: Due, active: bool, sleepTaskId: TaskId)
    requires id in tasks ==> tasks[id].job != SleepMode
    requires OnePendingSleep(tasks, active, sleepTaskId)
    ensures OnePendingSleep(Replan(tasks, id, due), active, sleepTaskId)
  {
    forall x ensures PendingSleep(Replan(tasks, id, due), x) <==> PendingSleep(tasks, x) {
    }
  }

  /** Parking or dropping the pending sleep task leaves none pending. */
  lemma DisarmSleep(tasks: map<TaskId, Entry>, sleepTaskId: TaskId)
    requires OnePendingSleep(tasks, true, sleepTaskId)
    ensures OnePendingSleep(Replan(tasks, sleepTaskId, Never), false, sleepTaskId)
    ensures OnePendingSleep(tasks - {sleepTaskId}, false, sleepTaskId)
  {
    forall x ensures !PendingSleep(Replan(tasks, sleepTaskId, Never), x) && !PendingSleep(tasks - {sleepTaskId}, x) {
      assert PendingSleep(tasks, x) ==> x == sleepTaskId;
    }
  }

  /** Registering a sleep task under a fresh id when none is pending makes it the one. */
  lemma ArmSleep(tasks: map<TaskId, Entry>, oldId: TaskId, id: TaskId, tick: nat, armed: map<TaskId, Entry>)
    requires OnePendingSleep(tasks, false, oldId) && id !in tasks
    requires armed == tasks[id := Entry(SleepMode, At(tick))]
    ensures OnePendingSleep(armed, true, id)
  {
    forall x ensures PendingSleep(armed, x) <==> x == id {
      assert x != id ==> !PendingSleep(tasks, x);
    }
  }

  class App {
    var header: Header
    var active: bool
    var sleepTaskId: TaskId
    var ds18b20TaskId: TaskId
    var batteryTaskId: TaskId
    /** The DS18B20 driver's update interval. */
    var ds18b20Interval: Due
    /** The last reading shown on the LCD (`None` is NaN). */
    var ds18b20Temperature: Option<int16>
    /** The voltage and temperature streams; with capacity 1 the average is the retained sample. */
    var voltageStream: Option<uint8>
    var temperatureStream: Option<int16>
    /** The static frame buffer and echo text of `send_lora_packet`. */
    var buffer: array<uint8>
    var tmp: array<char>
    /** Everything sent to the radio, the console, the LCD and its LED. */
    var log: seq<Effect>
    var sched: Scheduler

    ghost predicate Wired()
      reads this
    {
      buffer.Length == 4 && tmp.Length == 9
    }

    /** Both measurement tasks are registered, each with its own function. */
    ghost predicate Registered()
      reads this, sched
    {
      && ds18b20TaskId in sched.tasks && sched.tasks[ds18b20TaskId].job == Ds18b20Measure
      && batteryTaskId in sched.tasks && sched.tasks[batteryTaskId].job == BatteryMeasure
    }

    /** The activity state machine: the two measurement tasks stay registered, the DS18B20
        runs periodically exactly while active, and a sleep task is pending exactly while
        active. */
    ghost predicate TasksValid()
      reads this, sched
    {
      && Registered()
      && ds18b20Interval == (if active then At(MeasureInterval) else Never)
      && OnePendingSleep(sched.tasks, active, sleepTaskId)
    }

    /** The object invariant between two events: no task is running. */
    ghost predicate Valid()
      reads this, sched
    {
      Wired() && sched.current.None? && TasksValid() && HeaderInvariant(log, header)
    }

    /** `application_init`: the DS18B20 task is registered parked, the LCD is turned off, the
        battery task is registered due at tick 1000, both streams are empty. */
    constructor Init()
      ensures Valid() && fresh(sched) && fresh(buffer) && fresh(tmp)
      ensures header == Boot && !active && log == [LcdOff]
      ensures voltageStream.None? && temperatureStream.None? && ds18b20Temperature.None?
      ensures ds18b20TaskId == 0 && batteryTaskId == 1 && sched.now == 0
      ensures sched.tasks == map[ds18b20TaskId := Entry(Ds18b20Measure, Never),
                                 batteryTaskId := Entry(BatteryMeasure, At(FirstBatteryMeasure))]
    {
      var s := new Scheduler();
      var d := s.Register(Ds18b20Measure, Never);
      var b := s.Register(BatteryMeasure, At(FirstBatteryMeasure));
      header := Boot;
      active := false;
      sleepTaskId := 0;
      ds18b20TaskId := d;
      batteryTaskId := b;
      ds18b20Interval := Never;
      ds18b20Temperature := None;
      voltageStream := None;
      temperatureStream := None;
      buffer := new uint8[4];
      tmp := new char[9];
      log := [LcdOff];
      sched := s;
      new;
      assert [LcdOff][..0] == [];
    }

    /** The frame of `send_lora_packet`, written into `buffer` one `len++` at a time. */
    method FillBuffer()
      requires Wired()
      modifies buffer
      ensures buffer[..] == EncodeFrame(header, voltageStream, temperatureStream)
    {
      var len := 0;
      buffer[len] := header.Code();
      len := len + 1;
      buffer[len] := if voltageStream.Some? then voltageStream.value else Sentinel;
      len := len + 1;
      if temperatureStream.Some? {
        var t := temperatureStream.value;
        buffer[len] := ToUint8(ArithmeticShiftRight8(t));
        len := len + 1;
        buffer[len] := ToUint8(t);
        len := len + 1;
      } else {
        buffer[len] := Sentinel;
        len := len + 1;
        buffer[len] := Sentinel;
        len := len + 1;
      }
    }

    /** The echo loop of `send_lora_packet`: `%02x` of byte `i` at `tmp + 2 * i`, each write
        followed by its terminating NUL. */
    method FormatEcho()
      requires Wired()
      modifies tmp
      ensures tmp[..8] == HexString(buffer[..]) && tmp[8] == '\0'
    {
      var len := buffer.Length;
      for i := 0 to len
        invariant tmp[..2 * i] == HexString(buffer[..i])
        invariant 0 < i ==> tmp[2 * i] == '\0'
      {
        tmp[2 * i] := HexDigit(buffer[i] / 16);
        tmp[2 * i + 1] := HexDigit(buffer[i] % 16);
        tmp[2 * i + 2] := '\0';
        assert buffer[..i + 1][..i] == buffer[..i];
      }
      assert buffer[..len] == buffer[..];
    }

    /** `send_lora_packet`. With the radio busy, only the current task is re-planned 100 ticks
        on. Otherwise the 4-byte frame (header, voltage, temperature high, low) is built in
        `buffer`, handed to the radio, echoed in hex, and the header becomes UPDATE. */
    method SendLoraPacket(radioReady: bool)
      requires Wired()
      modifies this`header, this`log, buffer, tmp, sched
      ensures Wired() && sched.now == old(sched.now) && sched.current == old(sched.current)
      ensures !radioReady ==> && header == old(header) && log == old(log)
                              && buffer[..] == old(buffer[..]) && tmp[..] == old(tmp[..])
                              && sched.tasks == if sched.current.Some?
                                                then Replan(old(sched.tasks), sched.current.value, At(sched.now + RadioBusyRetry))
                                                else old(sched.tasks)
      ensures radioReady ==> && buffer[..] == EncodeFrame(old(header), voltageStream, temperatureStream)
                             && tmp[..8] == HexString(buffer[..]) && tmp[8] == '\0'
                             && log == old(log) + SendEffects(buffer[..])
                             && header == Update
                             && sched.tasks == old(sched.tasks)
    {
      if !radioReady {
        sched.PlanCurrentRelative(RadioBusyRetry);
        return;
      }
      FillBuffer();
      log := log + [RadioSend(buffer[..])];
      FormatEcho();
      log := log + [AtPrint("$SEND: " + tmp[..8])];
      log := log + [LcdLedPulse(PulseLength)];
      header := Update;
    }

    /** `button_event_handler`: CLICK and HOLD overwrite the header; other events do nothing.
        The deployed `application_init` never registers this handler. */
    method ButtonEventHandler(event: ButtonEvent)
      requires Valid()
      modifies this`header
      ensures Valid()
      ensures header == match event
                        case ButtonClickEvent => ButtonClick
                        case ButtonHoldEvent => ButtonHold
                        case _ => old(header)
    {
      if event == ButtonClickEvent {
        header := ButtonClick;
      } else if event == ButtonHoldEvent {
        header := ButtonHold;
      }
    }

    /** `battery_event_handler`: an UPDATE feeds the voltage stream, active or not. */
    method BatteryEventHandler(event: BatteryEvent, voltage: Option<uint8>)
      requires Valid()
      modifies this`voltageStream
      ensures Valid()
      ensures voltageStream == if event == BatteryUpdate then Feed(old(voltageStream), voltage) else old(voltageStream)
    {
      if event == BatteryUpdate {
        voltageStream := Feed(voltageStream, voltage);
      }
    }

    /** `ds18b20_event_handler`: the shown reading becomes NaN on every event and the new
        reading on UPDATE; only an UPDATE while active refreshes the LCD and feeds the
        temperature stream. */
    method Ds18b20EventHandler(event: Ds18b20Event, temperature: Option<int16>)
      requires Valid()
      modifies this`ds18b20Temperature, this`log, this`temperatureStream
      ensures Valid()
      ensures ds18b20Temperature == if event == Ds18b20Update then temperature else None
      ensures event == Ds18b20Update && active ==> && log == old(log) + [LcdPrintData(temperature)]
                                                   && temperatureStream == Feed(old(temperatureStream), temperature)
      ensures !(event == Ds18b20Update && active) ==> log == old(log) && temperatureStream == old(temperatureStream)
    {
      ds18b20Temperature := None;
      if event == Ds18b20Update {
        ds18b20Temperature := temperature;
        if active {
          HeaderInvariantAfterEffect(log, header, LcdPrintData(ds18b20Temperature));
          log := log + [LcdPrintData(ds18b20Temperature)];
          temperatureStream := Feed(temperatureStream, temperature);
        }
      }
    }

    /** `lcd_event_handler`. A left or right press pulses the LED, plans the battery task now,
        and registers a sleep task 30000 ticks on. From sleep it also starts the DS18B20
        (interval 1000, task now) and becomes active; when already active it sends a frame and
        unregisters the previous sleep task instead. Other events change nothing. */
    method LcdEventHandler(event: LcdEvent, radioReady: bool)
      requires Valid()
      modifies this`header, this`log, this`active, this`ds18b20Interval, this`sleepTaskId, buffer, tmp, sched
      ensures Valid() && sched.now == old(sched.now)
      ensures event == LcdOtherEvent ==> && log == old(log) && header == old(header) && active == old(active)
                                         && sleepTaskId == old(sleepTaskId) && sched.tasks == old(sched.tasks)
      ensures event != LcdOtherEvent ==> && active && sleepTaskId in sched.tasks
                                         && sched.tasks[sleepTaskId] == Entry(SleepMode, At(sched.now + SleepDelay))
      ensures event != LcdOtherEvent && !old(active) ==>
                && sleepTaskId !in old(sched.tasks)
                && sched.tasks == Replan(Replan(old(sched.tasks), batteryTaskId, At(sched.now)), ds18b20TaskId, At(sched.now))
                                  [sleepTaskId := Entry(SleepMode, At(sched.now + SleepDelay))]
                && log == old(log) + [LcdLedPulse(PulseLength)] && header == old(header)
      ensures event != LcdOtherEvent && old(active) ==>
                && sleepTaskId !in old(sched.tasks) - {old(sleepTaskId)}
                && sched.tasks == (Replan(old(sched.tasks), batteryTaskId, At(sched.now)) - {old(sleepTaskId)})
                                  [sleepTaskId := Entry(SleepMode, At(sched.now + SleepDelay))]
                && (radioReady ==> && buffer[..] == EncodeFrame(old(header), voltageStream, temperatureStream)
                                   && log == old(log) + [LcdLedPulse(PulseLength)] + SendEffects(buffer[..])
                                   && header == Update)
                && (!radioReady ==> log == old(log) + [LcdLedPulse(PulseLength)] && header == old(header))
      ensures !(event != LcdOtherEvent && old(active) && radioReady) ==> buffer[..] == old(buffer[..]) && tmp[..] == old(tmp[..])
    {
      if event != LcdOtherEvent {
        if !active {
          PressWhileAsleep();
        } else {
          PressWhileActive(radioReady);
        }
      }
    }

    /** The part common to both presses: an LED pulse and the battery task planned now. */
    method PulseAndPlanBattery()
      requires Valid()
      modifies this`log, sched
      ensures Valid() && sched.now == old(sched.now)
      ensures log == old(log) + [LcdLedPulse(PulseLength)]
      ensures sched.tasks == Replan(old(sched.tasks), batteryTaskId, At(sched.now))
    {
      HeaderInvariantAfterEffect(log, header, LcdLedPulse(PulseLength));
      log := log + [LcdLedPulse(PulseLength)];
      ReplanKeepsPendingSleep(sched.tasks, batteryTaskId, At(sched.now), active, sleepTaskId);
      sched.PlanNow(batteryTaskId);
    }

    /** A press while asleep: LED pulse, battery task now, the DS18B20 started (interval 1000,
        task now), active, and a sleep task registered 30000 ticks on. */
    method PressWhileAsleep()
      requires Valid() && !active
      modifies this`log, this`active, this`ds18b20Interval, this`sleepTaskId, sched
      ensures Valid() && active && sched.now == old(sched.now)
      ensures sleepTaskId !in old(sched.tasks)
      ensures sched.tasks == Replan(Replan(old(sched.tasks), batteryTaskId, At(sched.now)), ds18b20TaskId, At(sched.now))
                             [sleepTaskId := Entry(SleepMode, At(sched.now + SleepDelay))]
      ensures log == old(log) + [LcdLedPulse(PulseLength)]
      ensures |sched.tasks| == |old(sched.tasks)| + 1
    {
      PulseAndPlanBattery();
      ReplanKeepsPendingSleep(sched.tasks, ds18b20TaskId, At(sched.now), active, sleepTaskId);
      ds18b20Interval := At(MeasureInterval);
      sched.PlanNow(ds18b20TaskId);
      active := true;
      ArmSleepTask();
    }

    /** A press while active: LED pulse, battery task now, a frame sent at once (when the
        radio is ready), and the pending sleep task replaced by one 30000 ticks on. */
    method PressWhileActive(radioReady: bool)
      requires Valid() && active
      modifies this`header, this`log, this`sleepTaskId, buffer, tmp, sched
      ensures Valid() && sched.now == old(sched.now)
      ensures sleepTaskId !in old(sched.tasks) - {old(sleepTaskId)}
      ensures sched.tasks == (Replan(old(sched.tasks), batteryTaskId, At(sched.now)) - {old(sleepTaskId)})
                             [sleepTaskId := Entry(SleepMode, At(sched.now + SleepDelay))]
      ensures radioReady ==> && buffer[..] == EncodeFrame(old(header), voltageStream, temperatureStream)
                             && log == old(log) + [LcdLedPulse(PulseLength)] + SendEffects(buffer[..])
                             && header == Update
      ensures !radioReady ==> && log == old(log) + [LcdLedPulse(PulseLength)] && header == old(header)
                              && buffer[..] == old(buffer[..]) && tmp[..] == old(tmp[..])
    {
      PulseAndPlanBattery();
      ReportAndRearm(radioReady);
    }

    /** The rest of a press while active: the report, then the pending sleep task replaced
        by one 30000 ticks on. */
    method ReportAndRearm(radioReady: bool)
      requires Valid() && active
      modifies this`header, this`log, this`sleepTaskId, buffer, tmp, sched
      ensures Valid() && sched.now == old(sched.now)
      ensures sleepTaskId !in old(sched.tasks) - {old(sleepTaskId)}
      ensures sched.tasks == (old(sched.tasks) - {old(sleepTaskId)})[sleepTaskId := Entry(SleepMode, At(sched.now + SleepDelay))]
      ensures radioReady ==> && buffer[..] == EncodeFrame(old(header), voltageStream, temperatureStream)
                             && log == old(log) + SendEffects(buffer[..])
                             && header == Update
      ensures !radioReady ==> && log == old(log) && header == old(header)
                              && buffer[..] == old(buffer[..]) && tmp[..] == old(tmp[..])
    {
      assert PendingSleep(sched.tasks, sleepTaskId);
      DisarmSleep(sched.tasks, sleepTaskId);
      assert ds18b20TaskId != sleepTaskId && batteryTaskId != sleepTaskId;
      ReportNow(radioReady);
      ArmSleepTask();
    }

    /** The last step of every press: a sleep task registered 30000 ticks on, while none is
        pending, becomes the pending one. */
    method ArmSleepTask()
      requires Wired() && sched.current.None? && Registered() && HeaderInvariant(log, header)
      requires active && ds18b20Interval == At(MeasureInterval) && OnePendingSleep(sched.tasks, false, sleepTaskId)
      modifies this`sleepTaskId, sched
      ensures Valid() && sched.now == old(sched.now)
      ensures sleepTaskId !in old(sched.tasks)
      ensures sched.tasks == old(sched.tasks)[sleepTaskId := Entry(SleepMode, At(sched.now + SleepDelay))]
    {
      ghost var before := sched.tasks;
      sleepTaskId := sched.Register(SleepMode, At(sched.now + SleepDelay));
      ArmSleep(before, old(sleepTaskId), sleepTaskId, sched.now + SleepDelay, sched.tasks);
    }

    /** The sending half of a press while active, run from the LCD driver (no current task):
        a frame is sent at once when the radio is ready, then the pending sleep task is
        unregistered. */
    method ReportNow(radioReady: bool)
      requires Wired() && sched.current.None? && HeaderInvariant(log, header)
      modifies this`header, this`log, buffer, tmp, sched
      ensures Wired() && sched.now == old(sched.now) && sched.current.None? && HeaderInvariant(log, header)
      ensures sched.tasks == old(sched.tasks) - {sleepTaskId}
      ensures radioReady ==> && buffer[..] == EncodeFrame(old(header), voltageStream, temperatureStream)
                             && log == old(log) + SendEffects(buffer[..]) && header == Update
      ensures !radioReady ==> && log == old(log) && header == old(header)
                              && buffer[..] == old(buffer[..]) && tmp[..] == old(tmp[..])
    {
      HeaderInvariantAfterSend(log, header, voltageStream, temperatureStream);
      SendLoraPacket(radioReady);
      sched.Unregister(sleepTaskId);
    }

    /** `switch_to_sleep_mode`: inactive, DS18B20 interval infinite, LCD off; nothing else. */
    method SwitchToSleepMode()
      modifies this`active, this`ds18b20Interval, this`log
      ensures !active && ds18b20Interval == Never && log == old(log) + [LcdOff]
    {
      active := false;
      ds18b20Interval := Never;
      log := log + [LcdOff];
    }

    /** `battery_measure_task`: re-planned now until a measurement can be started. */
    method BatteryMeasureTask(started: bool)
      modifies sched
      ensures sched.now == old(sched.now) && sched.current == old(sched.current)
      ensures sched.tasks == if !started && sched.current.Some?
                             then Replan(old(sched.tasks), sched.current.value, At(sched.now))
                             else old(sched.tasks)
    {
      if !started {
        sched.PlanCurrentNow();
      }
    }

    /** `ds18b20_measure_task`: re-planned now until a measurement can be started, then a
        frame is sent from the averages held before the new reading arrives. */
    method Ds18b20MeasureTask(started: bool, radioReady: bool)
      requires Wired()
      modifies this`header, this`log, buffer, tmp, sched
      ensures Wired() && sched.now == old(sched.now) && sched.current == old(sched.current)
      ensures !started ==> && header == old(header) && log == old(log)
                           && sched.tasks == if sched.current.Some?
                                             then Replan(old(sched.tasks), sched.current.value, At(sched.now))
                                             else old(sched.tasks)
      ensures started && !radioReady ==> && header == old(header) && log == old(log)
                                         && sched.tasks == if sched.current.Some?
                                                           then Replan(old(sched.tasks), sched.current.value, At(sched.now + RadioBusyRetry))
                                                           else old(sched.tasks)
      ensures started && radioReady ==> && buffer[..] == EncodeFrame(old(header), voltageStream, temperatureStream)
                                        && log == old(log) + SendEffects(buffer[..])
                                        && header == Update && sched.tasks == old(sched.tasks)
      ensures !(started && radioReady) ==> buffer[..] == old(buffer[..]) && tmp[..] == old(tmp[..])
    {
      if !started {
        sched.PlanCurrentNow();
      } else {
        SendLoraPacket(radioReady);
      }
    }

    /** The scheduler runs the due task `id`: it is parked, its function runs with `id` as
        the current task, and it stays parked unless it re-planned itself. `started` is what
        the driver's measure call returned; `radioReady` what the radio reported. */
    method RunTask(id: TaskId, started: bool, radioReady: bool)
      requires Valid()
      requires id in sched.tasks && sched.tasks[id].due.At? && sched.tasks[id].due.tick <= sched.now
      modifies this`header, this`log, this`active, this`ds18b20Interval, buffer, tmp, sched
      ensures Valid() && sched.now == old(sched.now)
      ensures header == old(header) || header == Update
      ensures old(sched.tasks[id].job) == SleepMode ==>
                && !active && log == old(log) + [LcdOff] && header == old(header)
                && sched.tasks == Replan(old(sched.tasks), id, Never)
      ensures old(sched.tasks[id].job) == BatteryMeasure ==>
                && active == old(active) && log == old(log) && header == old(header)
                && sched.tasks == Replan(old(sched.tasks), id, if started then Never else At(sched.now))
      ensures old(sched.tasks[id].job) == Ds18b20Measure ==>
                && active == old(active)
                && sched.tasks == Replan(old(sched.tasks), id, if !started then At(sched.now)
                                                               else if !radioReady then At(sched.now + RadioBusyRetry)
                                                               else Never)
                && (started && radioReady ==> && buffer[..] == EncodeFrame(old(header), voltageStream, temperatureStream)
                                              && log == old(log) + SendEffects(buffer[..])
                                              && header == Update)
                && (!(started && radioReady) ==> log == old(log) && header == old(header))
      ensures !(old(sched.tasks[id].job) == Ds18b20Measure && started && radioReady) ==>
                buffer[..] == old(buffer[..]) && tmp[..] == old(tmp[..])
    {
      var job := sched.tasks[id].job;
      match job {
        case BatteryMeasure => RunBatteryMeasure(id, started);
        case Ds18b20Measure => RunDs18b20Measure(id, started, radioReady);
        case SleepMode => RunSleepMode(id);
      }
    }

    /** The battery task run by the scheduler: parked, and re-planned now when the
        measurement could not be started. */
    method RunBatteryMeasure(id: TaskId, started: bool)
      requires Valid() && id in sched.tasks && sched.tasks[id].job == BatteryMeasure
      modifies sched
      ensures Valid() && sched.now == old(sched.now)
      ensures sched.tasks == Replan(old(sched.tasks), id, if started then Never else At(sched.now))
    {
      ReplanKeepsPendingSleep(sched.tasks, id, Never, active, sleepTaskId);
      sched.Enter(id);
      ghost var parked := sched.tasks;
      BatteryMeasureTask(started);
      ReplanKeepsPendingSleep(parked, id, if started then Never else At(sched.now), active, sleepTaskId);
      ReplanTwice(old(sched.tasks), id, Never, if started then Never else At(sched.now));
      sched.Leave();
    }

    /** The DS18B20 task run by the scheduler: parked, re-planned now when the measurement
        could not be started, 100 ticks on when the radio was busy, and otherwise a frame is
        sent. */
    method RunDs18b20Measure(id: TaskId, started: bool, radioReady: bool)
      requires Valid() && id in sched.tasks && sched.tasks[id].job == Ds18b20Measure
      modifies this`header, this`log, buffer, tmp, sched
      ensures Valid() && sched.now == old(sched.now)
      ensures sched.tasks == Replan(old(sched.tasks), id, if !started then At(sched.now)
                                                          else if !radioReady then At(sched.now + RadioBusyRetry)
                                                          else Never)
      ensures started && radioReady ==> && buffer[..] == EncodeFrame(old(header), voltageStream, temperatureStream)
                                        && log == old(log) + SendEffects(buffer[..])
                                        && header == Update
      ensures !(started && radioReady) ==> && log == old(log) && header == old(header)
                                           && buffer[..] == old(buffer[..]) && tmp[..] == old(tmp[..])
    {
      ReplanKeepsPendingSleep(sched.tasks, id, Never, active, sleepTaskId);
      sched.Enter(id);
      ghost var parked := sched.tasks;
      if started && radioReady {
        HeaderInvariantAfterSend(log, header, voltageStream, temperatureStream);
      }
      Ds18b20MeasureTask(started, radioReady);
      ghost var due := if !started then At(sched.now) else if !radioReady then At(sched.now + RadioBusyRetry) else Never;
      ReplanKeepsPendingSleep(parked, id, due, active, sleepTaskId);
      ReplanTwice(old(sched.tasks), id, Never, due);
      sched.Leave();
    }

    /** The due sleep task run by the scheduler: parked, and the node goes to sleep. */
    method RunSleepMode(id: TaskId)
      requires Valid() && id in sched.tasks && sched.tasks[id].job == SleepMode && sched.tasks[id].due.At?
      modifies this`log, this`active, this`ds18b20Interval, sched
      ensures Valid() && sched.now == old(sched.now)
      ensures !active && log == old(log) + [LcdOff]
      ensures sched.tasks == Replan(old(sched.tasks), id, Never)
    {
      assert PendingSleep(sched.tasks, id);
      DisarmSleep(sched.tasks, id);
      sched.Enter(id);
      HeaderInvariantAfterEffect(log, header, LcdOff);
      SwitchToSleepMode();
      sched.Leave();
    }
  }

  /** At most one sleep task is pending at any time, and one is pending only while active. */
  lemma AtMostOnePendingSleep(app: App, a: TaskId, b: TaskId)
    requires app.Valid()
    requires PendingSleep(app.sched.tasks, a) && PendingSleep(app.sched.tasks, b)
    ensures a == b && app.active
  {
  }

  /** Boot and a first press: the node is active, the DS18B20 and battery tasks are due at
      once and the sleep task 30000 ticks on; nothing has been sent. */
  method BootAndPress() returns (app: App)
    ensures fresh(app) && fresh(app.sched) && fresh(app.buffer) && fresh(app.tmp)
    ensures app.Valid() && app.active && app.header == Boot && app.sched.now == 0
    ensures app.voltageStream.None? && app.temperatureStream.None?
    ensures app.log == [LcdOff, LcdLedPulse(PulseLength)]
    ensures app.ds18b20TaskId == 0 && app.batteryTaskId == 1
    ensures app.sched.tasks == map[app.ds18b20TaskId := Entry(Ds18b20Measure, At(0)),
                                   app.batteryTaskId := Entry(BatteryMeasure, At(0)),
                                   app.sleepTaskId := Entry(SleepMode, At(SleepDelay))]
  {
    app := new App.Init();
    app.LcdEventHandler(LcdLeftPress, true);
  }

  /** Boot, a press, and the two tasks it made due, in the order of their model ids: the
      DS18B20 task sends the first frame, with BOOT and two "absent" fields, then the battery
      measurement starts. */
  method BootAndFirstReport() returns (app: App, first: seq<uint8>)
    ensures fresh(app) && fresh(app.sched) && fresh(app.buffer) && fresh(app.tmp)
    ensures app.Valid() && app.active && app.header == Update && app.sched.now == 0
    ensures app.voltageStream.None? && app.temperatureStream.None?
    ensures app.sched.tasks == map[app.ds18b20TaskId := Entry(Ds18b20Measure, Never),
                                   app.batteryTaskId := Entry(BatteryMeasure, Never),
                                   app.sleepTaskId := Entry(SleepMode, At(SleepDelay))]
    ensures first == [0x00, 0xFF, 0xFF, 0xFF]
  {
    app := BootAndPress();
    app.RunTask(app.ds18b20TaskId, true, true);
    first := app.buffer[..];
    app.RunTask(app.batteryTaskId, true, true);
    assert first == EncodeFrame(Boot, None, None);
  }

  /** After the first report, two readings and a second press: the second frame carries
      UPDATE, 3.7 V and 21.4 degrees, and the press made the battery task due again. */
  method SecondReport() returns (app: App, first: seq<uint8>, second: seq<uint8>)
    ensures fresh(app) && fresh(app.sched) && fresh(app.buffer) && fresh(app.tmp)
    ensures app.Valid() && app.active && app.sched.now == 0
    ensures app.sched.tasks == map[app.ds18b20TaskId := Entry(Ds18b20Measure, Never),
                                   app.batteryTaskId := Entry(BatteryMeasure, At(0)),
                                   app.sleepTaskId := Entry(SleepMode, At(SleepDelay))]
    ensures first == [0x00, 0xFF, 0xFF, 0xFF]
    ensures second == [0x01, 0x25, 0x00, 0xD6]
  {
    app, first := BootAndFirstReport();
    app.Ds18b20EventHandler(Ds18b20Update, Some(214));
    app.BatteryEventHandler(BatteryUpdate, Some(37));
    app.LcdEventHandler(LcdRightPress, true);
    second := app.buffer[..];
    assert second == EncodeFrame(Update, Some(37), Some(214));
  }

  /** The whole run: two frames; the battery measurement the second press asked for starts;
      and 30000 quiet ticks later the sleep task that press armed puts the node to sleep. */
  method BootScenario() returns (first: seq<uint8>, second: seq<uint8>, activeAfterTimeout: bool)
    ensures first == [0x00, 0xFF, 0xFF, 0xFF]
    ensures second == [0x01, 0x25, 0x00, 0xD6]
    ensures !activeAfterTimeout
  {
    var app;
    app, first, second := SecondReport();
    app.RunTask(app.batteryTaskId, true, true);
    app.sched.AdvanceTo(SleepDelay);
    app.RunTask(app.sleepTaskId, true, true);
    activeAfterTimeout := app.active;
  }

  /** Boot and a press, then the two tasks it made due, in the order of their model ids: the
      DS18B20 task finds the radio busy and re-plans itself 100 ticks on, and the battery
      measurement starts. */
  method BusyAfterPress() returns (app: App)
    ensures fresh(app) && fresh(app.sched) && fresh(app.buffer) && fresh(app.tmp)
    ensures app.Valid() && app.active && app.header == Boot && app.sched.now == 0
    ensures app.voltageStream.None? && app.temperatureStream.None?
    ensures app.log == [LcdOff, LcdLedPulse(PulseLength)]
    ensures app.ds18b20TaskId == 0
    ensures app.sched.tasks == map[app.ds18b20TaskId := Entry(Ds18b20Measure, At(RadioBusyRetry)),
                                   app.batteryTaskId := Entry(BatteryMeasure, Never),
                                   app.sleepTaskId := Entry(SleepMode, At(SleepDelay))]
  {
    app := BootAndPress();
    app.RunTask(app.ds18b20TaskId, true, false);
    app.RunTask(app.batteryTaskId, true, true);
  }

  /** The radio stays busy: every 100 ticks the DS18B20 task fires, finds it busy and
      re-plans itself, until the tick the sleep task is due. Nothing is sent. */
  method RetryWhileBusy(app: App)
    requires app.Valid() && app.active
    requires app.sched.now < SleepDelay && app.sched.now % RadioBusyRetry == 0
    requires app.sched.tasks == map[app.ds18b20TaskId := Entry(Ds18b20Measure, At(app.sched.now + RadioBusyRetry)),
                                    app.batteryTaskId := Entry(BatteryMeasure, Never),
                                    app.sleepTaskId := Entry(SleepMode, At(SleepDelay))]
    modifies app`header, app`log, app`active, app`ds18b20Interval, app.buffer, app.tmp, app.sched
    ensures app.Valid() && app.active && app.sched.now == SleepDelay - RadioBusyRetry
    ensures app.header == old(app.header) && app.log == old(app.log)
    ensures app.sched.tasks == map[app.ds18b20TaskId := Entry(Ds18b20Measure, At(SleepDelay)),
                                   app.batteryTaskId := Entry(BatteryMeasure, Never),
                                   app.sleepTaskId := Entry(SleepMode, At(SleepDelay))]
  {
    while app.sched.now < SleepDelay - RadioBusyRetry
      invariant app.Valid() && app.active
      invariant app.sched.now <= SleepDelay - RadioBusyRetry && app.sched.now % RadioBusyRetry == 0
      invariant app.header == old(app.header) && app.log == old(app.log)
      invariant app.sched.tasks == map[app.ds18b20TaskId := Entry(Ds18b20Measure, At(app.sched.now + RadioBusyRetry)),
                                       app.batteryTaskId := Entry(BatteryMeasure, Never),
                                       app.sleepTaskId := Entry(SleepMode, At(SleepDelay))]
      decreases SleepDelay - app.sched.now
    {
      app.sched.AdvanceTo(app.sched.now + RadioBusyRetry);
      app.RunTask(app.ds18b20TaskId, true, false);
    }
  }

  /** Boot and a press, then a radio that stays busy: the DS18B20 task retries every 100
      ticks, and at tick 30000 it fires once more, before the sleep task (it has the lower
      model id), and re-plans itself to 30100. Then the sleep timeout puts the node to sleep.
      Going to sleep does not park the DS18B20 task, so it is still due. */
  method RetryBeforeSleep() returns (app: App)
    ensures fresh(app) && fresh(app.sched) && fresh(app.buffer) && fresh(app.tmp)
    ensures app.Valid() && !app.active && app.sched.now == SleepDelay && app.header == Boot
    ensures app.voltageStream.None? && app.temperatureStream.None?
    ensures app.log == [LcdOff, LcdLedPulse(PulseLength), LcdOff]
    ensures app.sched.tasks == map[app.ds18b20TaskId := Entry(Ds18b20Measure, At(SleepDelay + RadioBusyRetry)),
                                   app.batteryTaskId := Entry(BatteryMeasure, Never),
                                   app.sleepTaskId := Entry(SleepMode, Never)]
  {
    app := BusyAfterPress();
    RetryWhileBusy(app);
    app.sched.AdvanceTo(SleepDelay);
    app.RunTask(app.ds18b20TaskId, true, false);
    app.RunTask(app.sleepTaskId, true, true);
  }

  /** The DS18B20 task that was retrying when the node went to sleep fires 100 ticks later,
      finds the radio ready, and sends a frame while the node is asleep. */
  method SendWhileAsleep() returns (sentAt: nat, activeWhenSent: bool, frames: seq<seq<uint8>>)
    ensures sentAt == SleepDelay + RadioBusyRetry
    ensures !activeWhenSent
    ensures frames == [[0x00, 0xFF, 0xFF, 0xFF]]
  {
    var app := RetryBeforeSleep();
    ghost var before := app.log;
    app.sched.AdvanceTo(SleepDelay + RadioBusyRetry);
    sentAt := app.sched.now;
    app.RunTask(app.ds18b20TaskId, true, true);
    activeWhenSent := app.active;
    assert app.buffer[..] == EncodeFrame(Boot, None, None) == [0x00, 0xFF, 0xFF, 0xFF];
    SentFramesAppend(before, SendEffects(app.buffer[..]));
    SendEffectsSendOneFrame(app.buffer[..]);
    NoSendNoFrames(before);
    frames := SentFrames(app.log);
  }
}
