/** The helpers of general.cpp and the globals of general.h: the virtual clock,
    the timestamp text, the expander output byte, the ambient-light mapping and
    the state shared by both rooms and the main loop. */
module General {
  import opened Enums
  import opened NavStack

  // ---------------------------------------------------------------------
  // Clock. Times are milliseconds of virtual time; millis() does not wrap.
  // ---------------------------------------------------------------------

  const MsPerSecond: nat := 1000
  const MsPerMinute: nat := 60000
  const MsPerHour: nat := 3600000
  const MsPerDay: nat := 86400000
  const StartHour: nat := 8

  /** The milliseconds in h whole hours. */
  function MillisFromHour(h: nat): (r: nat)
    ensures r % MsPerHour == 0 && r / MsPerHour == h
  {
    h * 60 * 60 * 1000
  }

  /** The virtual time at which millis() reads 0 (8 in the morning). */
  const StartTime: nat := MillisFromHour(StartHour)

  /** The largest offset the time wheel can add: four hours. */
  const TimeWheelRange: nat := MillisFromHour(4)

  /** Virtual time: elapsed run time plus the start hour plus the wheel offset. */
  function CurrentTime(millis: nat, addedTime: nat): (r: nat)
    ensures r - millis == StartTime + addedTime
    ensures addedTime <= TimeWheelRange ==> millis + StartTime <= r <= millis + StartTime + TimeWheelRange
  {
    millis + StartTime + addedTime
  }

  function Hour(t: nat): (h: nat)
    ensures h < 24
  {
    (t / MsPerHour) % 24
  }

  function Minute(t: nat): (m: nat)
    ensures m < 60
  {
    (t / MsPerMinute) % 60
  }

  /** The hour of MillisFromHour(h), plus less than an hour, is h again. */
  lemma HourOfMillisFromHour(h: nat, m: nat)
    requires h < 24 && m < MsPerHour
    ensures Hour(MillisFromHour(h) + m) == h
    ensures Minute(MillisFromHour(h) + m) == m / MsPerMinute
  {
  }

  /** Within the first hour of run time, with less than an hour added by the
      wheel, the clock reads the start hour. */
  lemma ClockStartsAtStartHour(millis: nat, addedTime: nat)
    requires millis + addedTime < MsPerHour
    ensures Hour(CurrentTime(millis, addedTime)) == StartHour
    ensures Minute(CurrentTime(millis, addedTime)) == (millis + addedTime) / MsPerMinute
  {
    HourOfMillisFromHour(StartHour, millis + addedTime);
  }

  /** Hours and minutes repeat every day: the wrap at 24 h never gives an hour
      out of range or a different reading. */
  lemma {:induction false} ClockIsDaily(t: nat, days: nat)
    ensures Hour(t + days * MsPerDay) == Hour(t)
    ensures Minute(t + days * MsPerDay) == Minute(t)
  {
    if days > 0 {
      ClockIsDaily(t, days - 1);
      var u := t + (days - 1) * MsPerDay;
      assert t + days * MsPerDay == u + MsPerDay;
      OneDayLater(u);
    }
  }

  /** A day later the clock reads the same hour and minute. */
  lemma OneDayLater(u: nat)
    ensures Hour(u + MsPerDay) == Hour(u) && Minute(u + MsPerDay) == Minute(u)
  {
    DayInHours(u);
    DayInMinutes(u);
  }

  lemma DayInHours(u: nat)
    ensures (u + MsPerDay) / MsPerHour == u / MsPerHour + 24
  {
  }

  lemma DayInMinutes(u: nat)
    ensures (u + MsPerDay) / MsPerMinute == u / MsPerMinute + 1440
  {
  }

  // ---------------------------------------------------------------------
  // Timestamp "HH:MM:SS.mmm".
  // ---------------------------------------------------------------------

  datatype Timestamp = Timestamp(hours: int, mins: int, secs: int, ms: int)

  predicate InRange(ts: Timestamp)
  {
    0 <= ts.hours < 24 && 0 <= ts.mins < 60 && 0 <= ts.secs < 60 && 0 <= ts.ms < 1000
  }

  function MillisOfDay(ts: Timestamp): int
  {
    ts.hours * MsPerHour + ts.mins * MsPerMinute + ts.secs * MsPerSecond + ts.ms
  }

  /** The fields of getTimestamp: each in range, hours and minutes those of the
      clock, and together the time elapsed since midnight. */
  function TimestampOf(t: nat): (ts: Timestamp)
    ensures InRange(ts)
    ensures ts.hours == Hour(t) && ts.mins == Minute(t)
    ensures MillisOfDay(ts) == t % MsPerDay
  {
    var ts := Timestamp((t / MsPerHour) % 24, (t / MsPerMinute) % 60, (t / MsPerSecond) % 60, t % MsPerSecond);
    assert t % MsPerDay == ((t / MsPerHour) % 24) * MsPerHour + t % MsPerHour;
    assert t % MsPerHour == ((t / MsPerMinute) % 60) * MsPerMinute + t % MsPerMinute;
    assert t % MsPerMinute == ((t / MsPerSecond) % 60) * MsPerSecond + t % MsPerSecond;
    ts
  }

  function Pow10(n: nat): nat
  {
    if n == 0 then 1 else 10 * Pow10(n - 1)
  }

  function DigitChar(d: nat): char
    requires d < 10
  {
    (48 + d) as char
  }

  function DigitValue(c: char): int
  {
    c as int - 48
  }

  /** n written in decimal with exactly `width` digits, zero-padded (printf's
      "%0<width>lu" for a value that fits). */
  function Digits(n: nat, width: nat): (s: string)
    ensures |s| == width
    ensures forall i :: 0 <= i < |s| ==> '0' <= s[i] <= '9'
  {
    if width == 0 then [] else Digits(n / 10, width - 1) + [DigitChar(n % 10)]
  }

  /** The value of a string of decimal digits. */
  function ValueOf(s: string): int
  {
    if s == [] then 0 else ValueOf(s[..|s| - 1]) * 10 + DigitValue(s[|s| - 1])
  }

  lemma {:induction false} ValueOfDigits(n: nat, width: nat)
    requires n < Pow10(width)
    ensures ValueOf(Digits(n, width)) == n
  {
    if width > 0 {
      var s := Digits(n, width);
      assert s[..|s| - 1] == Digits(n / 10, width - 1);
      ValueOfDigits(n / 10, width - 1);
    }
  }

  function FormatTimestamp(ts: Timestamp): (s: string)
    requires InRange(ts)
    ensures |s| == 12 && s[2] == ':' && s[5] == ':' && s[8] == '.'
  {
    Digits(ts.hours, 2) + ":" + Digits(ts.mins, 2) + ":" + Digits(ts.secs, 2) + "." + Digits(ts.ms, 3)
  }

  function ParseTimestamp(s: string): Timestamp
    requires |s| == 12
  {
    Timestamp(ValueOf(s[0..2]), ValueOf(s[3..5]), ValueOf(s[6..8]), ValueOf(s[9..12]))
  }

  /** Reading the fields back out of the formatted text gives the fields. */
  lemma FormatTimestampRoundTrip(ts: Timestamp)
    requires InRange(ts)
    ensures ParseTimestamp(FormatTimestamp(ts)) == ts
  {
    var s := FormatTimestamp(ts);
    assert s[0..2] == Digits(ts.hours, 2);
    assert s[3..5] == Digits(ts.mins, 2);
    assert s[6..8] == Digits(ts.secs, 2);
    assert s[9..12] == Digits(ts.ms, 3);
    ValueOfDigits(ts.hours, 2);
    ValueOfDigits(ts.mins, 2);
    ValueOfDigits(ts.secs, 2);
    ValueOfDigits(ts.ms, 3);
  }

  /** getTimestamp: the current virtual time as "HH:MM:SS.mmm". */
  function GetTimestamp(t: nat): (s: string)
    ensures |s| == 12
    ensures ParseTimestamp(s) == TimestampOf(t)
  {
    FormatTimestampRoundTrip(TimestampOf(t));
    FormatTimestamp(TimestampOf(t))
  }

  // ---------------------------------------------------------------------
  // The expander output byte.
  // ---------------------------------------------------------------------

  /** The byte with only bit q set: 1 << q. */
  function Mask(q: nat): bv8
    requires q < 8
  {
    if q == 0 then 0x01 else if q == 1 then 0x02 else if q == 2 then 0x04 else if q == 3 then 0x08
    else if q == 4 then 0x10 else if q == 5 then 0x20 else if q == 6 then 0x40 else 0x80
  }

  function Bit(b: bv8, q: nat): bool
    requires q < 8
  {
    b & Mask(q) != 0
  }

  /** setExpanderPin on the byte: set or clear the pin's bit. */
  function WithPin(b: bv8, pin: nat, on: bool): (r: bv8)
    requires pin < 8
    ensures on ==> r & b == b
    ensures !on ==> r & b == r
  {
    if on then b | Mask(pin) else b & !Mask(pin)
  }

  /** Bit `pin` becomes `on` and every other bit stays. */
  lemma WithPinBits(b: bv8, pin: nat, on: bool)
    requires pin < 8
    ensures Bit(WithPin(b, pin, on), pin) == on
    ensures forall q :: 0 <= q < 8 && q != pin ==> Bit(WithPin(b, pin, on), q) == Bit(b, q)
  {
    forall q | 0 <= q < 8
      ensures Bit(WithPin(b, pin, on), q) == if q == pin then on else Bit(b, q)
    {
      MaskBits(pin, q);
    }
  }

  /** Masks of different pins share no bit. */
  lemma MaskBits(p: nat, q: nat)
    requires p < 8 && q < 8
    ensures Mask(p) & Mask(q) == if p == q then Mask(p) else 0
    ensures Mask(p) != 0
  {
  }

  /** A byte is determined by its eight bits. */
  lemma BitsDetermineByte(a: bv8, b: bv8)
    requires forall q :: 0 <= q < 8 ==> Bit(a, q) == Bit(b, q)
    ensures a == b
  {
    assert Bit(a, 0) == Bit(b, 0) && Bit(a, 1) == Bit(b, 1) && Bit(a, 2) == Bit(b, 2) && Bit(a, 3) == Bit(b, 3);
    assert Bit(a, 4) == Bit(b, 4) && Bit(a, 5) == Bit(b, 5) && Bit(a, 6) == Bit(b, 6) && Bit(a, 7) == Bit(b, 7);
  }

  /** Writing a pin twice keeps only the second write. */
  lemma WithPinOverwrite(b: bv8, pin: nat, on1: bool, on2: bool)
    requires pin < 8
    ensures WithPin(WithPin(b, pin, on1), pin, on2) == WithPin(b, pin, on2)
  {
  }

  /** Writes to two different pins commute. */
  lemma WithPinCommute(b: bv8, p: nat, q: nat, x: bool, y: bool)
    requires p < 8 && q < 8 && p != q
    ensures WithPin(WithPin(b, p, x), q, y) == WithPin(WithPin(b, q, y), p, x)
  {
    if x != y {
      SetClearCommute(b, if x then p else q, if x then q else p);
    }
  }

  /** Setting one pin and clearing another commute. */
  lemma SetClearCommute(b: bv8, p: nat, q: nat)
    requires p < 8 && q < 8 && p != q
    ensures WithPin(WithPin(b, p, true), q, false) == WithPin(WithPin(b, q, false), p, true)
  {
  }

  /** Setting then clearing a pin is the same as clearing it, and restores a
      byte whose pin was clear. */
  lemma SetThenClear(b: bv8, pin: nat)
    requires pin < 8
    ensures WithPin(WithPin(b, pin, true), pin, false) == WithPin(b, pin, false)
    ensures !Bit(b, pin) ==> WithPin(WithPin(b, pin, true), pin, false) == b
  {
  }

  // ---------------------------------------------------------------------
  // Ambient light to strip intensity.
  // ---------------------------------------------------------------------

  function AbsValue(x: int): int
  {
    if x < 0 then -x else x
  }

  /** C integer division, which truncates toward zero. */
  function TruncDiv(a: int, b: int): (q: int)
    requires b != 0
    ensures a >= 0 ==> 0 <= a - q * b < AbsValue(b)
    ensures a < 0 ==> -AbsValue(b) < a - q * b <= 0
  {
    if a >= 0 then
      (if b > 0 then a / b else -(a / -b))
    else
      (if b > 0 then -((-a) / b) else (-a) / (-b))
  }

  /** Arduino's map(): a linear rescale with truncating division and no clamping. */
  function ArduinoMap(x: int, inMin: int, inMax: int, outMin: int, outMax: int): int
    requires inMax != inMin
  {
    TruncDiv((x - inMin) * (outMax - outMin), inMax - inMin) + outMin
  }

  /** mapOutdoorLighting as the source writes it: 4 below 380, otherwise the
      unclamped map of [380, 679] onto [3, 0]. */
  function MapOutdoorLightingAsWritten(reading: int): (r: int)
    ensures r <= 4
    ensures r == 4 <==> reading < 380
  {
    if reading < 380 then 4 else ArduinoMap(reading, 380, 679, 3, 0)
  }

  /** The two thresholds: 380 is the first reading mapped below 4 and gives 3;
      679 gives 0. */
  lemma AsWrittenAtLowThreshold()
    ensures MapOutdoorLightingAsWritten(379) == 4
    ensures MapOutdoorLightingAsWritten(380) == 3
  {
    assert ArduinoMap(380, 380, 679, 3, 0) == TruncDiv(0, 299) + 3;
  }

  lemma AsWrittenAtHighThreshold()
    ensures MapOutdoorLightingAsWritten(679) == 0
  {
    assert ArduinoMap(679, 380, 679, 3, 0) == TruncDiv(-897, 299) + 3;
  }

  /** Between 380 and 778 the as-written map stays in [0, 3] and does not
      increase as the room gets brighter. */
  lemma AsWrittenMidRange(x: int, y: int)
    requires 380 <= x <= y <= 778
    ensures 0 <= MapOutdoorLightingAsWritten(x) <= 3
    ensures MapOutdoorLightingAsWritten(y) <= MapOutdoorLightingAsWritten(x)
  {
    assert MapOutdoorLightingAsWritten(x) == 3 - (3 * (x - 380)) / 299;
    assert MapOutdoorLightingAsWritten(y) == 3 - (3 * (y - 380)) / 299;
  }

  /** The as-written map goes negative for bright readings: 779 gives -1 and
      the top of the 10-bit range gives -3. */
  lemma AsWrittenGoesNegative()
    ensures MapOutdoorLightingAsWritten(779) == -1
    ensures MapOutdoorLightingAsWritten(1023) == -3
  {
    assert ArduinoMap(779, 380, 679, 3, 0) == TruncDiv(-1197, 299) + 3;
    assert ArduinoMap(1023, 380, 679, 3, 0) == TruncDiv(-1929, 299) + 3;
  }

  /** mapOutdoorLighting as intended: readings at or past the high threshold
      map to 0, so the result is always a valid intensity. */
  function MapOutdoorLighting(reading: int): (r: int)
    ensures 0 <= r <= 4
    ensures reading < 779 ==> r == MapOutdoorLightingAsWritten(reading)
    ensures reading >= 679 ==> r == 0
  {
    if reading < 380 then 4
    else
      var m := ArduinoMap(reading, 380, 679, 3, 0);
      if m < 0 then 0 else m
  }

  /** The intended map never increases as the reading increases. */
  lemma MapOutdoorLightingNonIncreasing(x: int, y: int)
    requires x <= y
    ensures MapOutdoorLighting(y) <= MapOutdoorLighting(x)
  {
    if 380 <= x && y <= 778 {
      AsWrittenMidRange(x, y);
    }
  }

  // ---------------------------------------------------------------------
  // Shared state (general.h): button edges, dirty flags, outputs, stack.
  // ---------------------------------------------------------------------

  /** The four buttons as sampled at the start of a loop iteration. */
  datatype Buttons = Buttons(left: bool, right: bool, back: bool, schedule: bool)

  /** The three redraw flags shared by both rooms. */
  datatype Dirty = Dirty(light: bool, temp: bool, schedule: bool)

  datatype Color = Color(red: int, green: int, blue: int)

  const Black: Color := Color(0, 0, 0)
  const Green: Color := Color(0, 255, 0)

  /** Pixels on the light strip: four per room. */
  const StripLength: nat := 8

  class Globals {
    var expanderPinStates: bv8
    var currentState: SystemState
    var lightAdjusted: bool
    var tempAdjusted: bool
    var scheduleAdjusted: bool
    var timeAdjusted: bool
    var addedTime: nat
    var lastTimeWheelValue: int
    const stateStack: StateStack
    const strip: array<Color>

    ghost predicate Valid()
      reads this, stateStack
    {
      stateStack.Valid() && strip.Length == StripLength && addedTime <= TimeWheelRange
    }

    function DirtyFlags(): Dirty
      reads this
    {
      Dirty(lightAdjusted, tempAdjusted, scheduleAdjusted)
    }

    constructor ()
      ensures Valid() && fresh(stateStack) && fresh(stateStack.stack) && fresh(strip)
      ensures stateStack.Contents() == [] && strip[..] == seq(StripLength, _ => Black)
      ensures expanderPinStates == 0 && currentState == WelcomeScreen
      ensures DirtyFlags() == Dirty(false, false, false) && !timeAdjusted
      ensures addedTime == 0 && lastTimeWheelValue == 0
    {
      expanderPinStates := 0;
      currentState := WelcomeScreen;
      lightAdjusted, tempAdjusted, scheduleAdjusted, timeAdjusted := false, false, false, false;
      addedTime, lastTimeWheelValue := 0, 0;
      stateStack := new StateStack();
      strip := new Color[StripLength](_ => Black);
    }

    method SetExpanderPin(pin: nat, state: bool)
      requires pin < 8
      modifies this`expanderPinStates
      ensures expanderPinStates == WithPin(old(expanderPinStates), pin, state)
    {
      if state {
        expanderPinStates := expanderPinStates | Mask(pin);
      } else {
        expanderPinStates := expanderPinStates & !Mask(pin);
      }
    }
  }
}
