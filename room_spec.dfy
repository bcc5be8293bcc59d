/** What one room's automation does, as functions on the room's state and the
    shared redraw flags (RoomControl.cpp, fields in RoomControl.h). The class in
    module Rooms performs these steps in place; its methods are proved to end
    in the state these functions compute. Temperatures are whole tenths of a
    degree Celsius. */
module RoomSpec {
  import opened Enums
  import opened General

  const MinTarget: int := 100
  const MaxTarget: int := 300
  const TempStep: int := 5
  const DefaultTarget: int := 220
  const SetbackTarget: int := 180
  const MaxLight: int := 4
  const HoursPerDay: int := 24
  const NoOverride: int := -1
  const DebounceMs: nat := 2000
  const WarnAfterMs: nat := 15000
  const OffAfterMs: nat := 20000
  const SegmentLength: nat := 4

  /** The room's fixed wiring: sensor channels, expander pins, strip offset. */
  datatype RoomConfig = RoomConfig(tempSensorPin: int, heatingPin: int, coolingPin: int, pirPin: int,
                                   lightStripStartIndex: int)

  /** Wiring the automation can drive: two distinct expander bits and a whole
      four-pixel segment on the strip. */
  predicate ConfigOk(c: RoomConfig)
  {
    && 0 <= c.heatingPin < 8 && 0 <= c.coolingPin < 8 && c.heatingPin != c.coolingPin
    && 0 <= c.lightStripStartIndex && c.lightStripStartIndex + SegmentLength <= StripLength
  }

  /** The per-room fields of RoomControl (the schedule as a sequence). */
  datatype Room = Room(
    currentTemp: int,
    targetTemp: int,
    acState: ACState,
    lightIntensity: int,
    selectedHour: int,
    hourOverride: int,
    lastMotionTime: nat,
    peoplePresent: bool,
    inactive: bool,
    scheduleActive: bool,
    autoLightEnabled: bool,
    isDisplayed: bool,
    schedule: seq<int>)

  /** A room together with the shared redraw flags its steps raise. */
  datatype View = View(room: Room, dirty: Dirty)

  /** The automation steps only raise redraw flags, never clear them, and
      leave the schedule flag to the schedule editor. */
  predicate OnlyRaised(d: Dirty, d': Dirty)
  {
    (d.light ==> d'.light) && (d.temp ==> d'.temp) && d'.schedule == d.schedule
  }

  /** One intensity per hour of the day, each a valid intensity. */
  predicate ScheduleOk(s: seq<int>)
  {
    |s| == HoursPerDay && forall h :: 0 <= h < |s| ==> 0 <= s[h] <= MaxLight
  }

  /** The ranges the handlers keep: intensity and every schedule slot in
      [0, 4], the target in [10.0, 30.0] on the 0.5 grid, the cursor an hour,
      the override an hour or -1. */
  predicate RoomOk(r: Room)
  {
    && 0 <= r.lightIntensity <= MaxLight
    && ScheduleOk(r.schedule)
    && MinTarget <= r.targetTemp <= MaxTarget && r.targetTemp % TempStep == 0
    && 0 <= r.selectedHour < HoursPerDay
    && NoOverride <= r.hourOverride < HoursPerDay
  }

  /** The field initialisers of RoomControl.h. */
  function InitialRoom(): (r: Room)
    ensures RoomOk(r)
  {
    Room(0, DefaultTarget, Off, 0, 0, NoOverride, 0, false, false, false, false, false,
         seq(HoursPerDay, _ => 0))
  }

  // ---------------------------------------------------------------------
  // Thermostat
  // ---------------------------------------------------------------------

  /** The state the thermostat aims for: a strict three-way comparison. */
  function DesiredAC(current: int, target: int): (s: ACState)
    ensures s == Heating <==> current < target
    ensures s == Cooling <==> current > target
    ensures s == Off <==> current == target
  {
    if current < target then Heating else if current > target then Cooling else Off
  }

  /** adjustAC: switch only when the desired state differs from the current one. */
  function AdjustAC(v: View): (r: View)
    ensures r.room == v.room.(acState := DesiredAC(v.room.currentTemp, v.room.targetTemp))
    ensures r.dirty == v.dirty
  {
    var room := v.room;
    if room.currentTemp < room.targetTemp && room.acState != Heating then
      v.(room := room.(acState := Heating))
    else if room.currentTemp > room.targetTemp && room.acState != Cooling then
      v.(room := room.(acState := Cooling))
    else if room.currentTemp == room.targetTemp && room.acState != Off then
      v.(room := room.(acState := Off))
    else
      v
  }

  /** A second adjustment with the same temperatures changes nothing. */
  lemma AdjustACIdempotent(v: View)
    ensures AdjustAC(AdjustAC(v)) == AdjustAC(v)
  {
  }

  /** setACState on the expander byte: the heating bit is on exactly for
      Heating, the cooling bit exactly for Cooling, other bits are kept. */
  function DriveOutputs(b: bv8, c: RoomConfig, ac: ACState): (r: bv8)
    requires ConfigOk(c)
    ensures Bit(r, c.heatingPin) == (ac == Heating)
    ensures Bit(r, c.coolingPin) == (ac == Cooling)
    ensures forall q :: 0 <= q < 8 && q != c.heatingPin && q != c.coolingPin ==> Bit(r, q) == Bit(b, q)
  {
    // The three arms of the switch: the heating pin, then the cooling pin.
    var heat, cool := ac == Heating, ac == Cooling;
    var m := WithPin(b, c.heatingPin, heat);
    WithPinBits(b, c.heatingPin, heat);
    WithPinBits(m, c.coolingPin, cool);
    WithPin(m, c.coolingPin, cool)
  }

  /** The room's two expander bits show its thermostat state. */
  predicate OutputsMatch(b: bv8, c: RoomConfig, ac: ACState)
    requires ConfigOk(c)
  {
    Bit(b, c.heatingPin) == (ac == Heating) && Bit(b, c.coolingPin) == (ac == Cooling)
  }

  /** Driving the outputs a byte already shows leaves the byte as it is; this
      is why adjustAC may skip setACState when the state does not change. */
  lemma DriveOutputsWhenMatching(b: bv8, c: RoomConfig, ac: ACState)
    requires ConfigOk(c) && OutputsMatch(b, c, ac)
    ensures DriveOutputs(b, c, ac) == b
  {
    var r := DriveOutputs(b, c, ac);
    forall q | 0 <= q < 8
      ensures Bit(r, q) == Bit(b, q)
    {
    }
    BitsDetermineByte(r, b);
  }

  /** Driving the outputs twice is the same as driving them once with the
      second state. */
  lemma DriveOutputsTwice(b: bv8, c: RoomConfig, ac1: ACState, ac2: ACState)
    requires ConfigOk(c)
    ensures DriveOutputs(DriveOutputs(b, c, ac1), c, ac2) == DriveOutputs(b, c, ac2)
  {
    var h, k := c.heatingPin, c.coolingPin;
    var x1, y1, x2, y2 := ac1 == Heating, ac1 == Cooling, ac2 == Heating, ac2 == Cooling;
    var m := WithPin(b, h, x1);
    WithPinCommute(m, k, h, y1, x2);
    WithPinOverwrite(b, h, x1, x2);
    WithPinOverwrite(WithPin(b, h, x2), k, y1, y2);
  }

  /** Driving one room's outputs leaves another room's outputs showing what
      they showed, as long as the two rooms use different pins. */
  lemma DriveOutputsKeepsOther(b: bv8, c: RoomConfig, ac: ACState, c': RoomConfig, ac': ACState)
    requires ConfigOk(c) && ConfigOk(c')
    requires c'.heatingPin != c.heatingPin && c'.heatingPin != c.coolingPin
    requires c'.coolingPin != c.heatingPin && c'.coolingPin != c.coolingPin
    requires OutputsMatch(b, c', ac')
    ensures OutputsMatch(DriveOutputs(b, c, ac), c', ac')
  {
  }

  /** autoUpdateTemperature: take the reading (raising the temperature flag
      when it moved), then adjust the thermostat. */
  function AutoUpdateTemperature(v: View, temp: int): (r: View)
    ensures r.room == v.room.(currentTemp := temp, acState := DesiredAC(temp, v.room.targetTemp))
    ensures r.dirty == v.dirty.(temp := v.dirty.temp || temp != v.room.currentTemp)
  {
    var v1 := if temp != v.room.currentTemp then View(v.room.(currentTemp := temp), v.dirty.(temp := true)) else v;
    AdjustAC(v1)
  }

  /** handleRoomTempControl: left lowers the target by 0.5 above 10.0, right
      raises it by 0.5 below 30.0; only the target and the flag change. */
  function TempControl(v: View, b: Buttons): (r: View)
    requires RoomOk(v.room)
    ensures RoomOk(r.room)
    ensures r.room == v.room.(targetTemp := r.room.targetTemp)
    ensures r.room.targetTemp == v.room.targetTemp - TempStep <==> b.left && v.room.targetTemp > MinTarget
    ensures r.room.targetTemp == v.room.targetTemp + TempStep <==>
              !(b.left && v.room.targetTemp > MinTarget) && b.right && v.room.targetTemp < MaxTarget
    ensures r.room.targetTemp == v.room.targetTemp ==> r == v
    ensures r.room.targetTemp != v.room.targetTemp ==> r.dirty == v.dirty.(temp := true)
    ensures !(b.left && v.room.targetTemp > MinTarget) && !(b.right && v.room.targetTemp < MaxTarget) ==> r == v
  {
    var t := v.room.targetTemp;
    if b.left && t > MinTarget then
      View(v.room.(targetTemp := t - TempStep), v.dirty.(temp := true))
    else if b.right && t < MaxTarget then
      View(v.room.(targetTemp := t + TempStep), v.dirty.(temp := true))
    else
      v
  }

  // ---------------------------------------------------------------------
  // Light strip and manual light control
  // ---------------------------------------------------------------------

  /** The colour pixel i of a segment starting at `start` shows for intensity n. */
  function SegmentColor(start: int, n: int, i: int): Color
  {
    if i < start + n then Green else Black
  }

  /** The four pixels from `start` show intensity n: n green, the rest black. */
  predicate SegmentShows(s: seq<Color>, start: int, n: int)
  {
    && 0 <= start && start + SegmentLength <= |s|
    && forall i :: start <= i < start + SegmentLength ==> s[i] == SegmentColor(start, n, i)
  }

  /** The strip after updateNeoPixelBrightness: the segment shows n, every
      pixel outside it is untouched. */
  function PaintSegment(s: seq<Color>, start: int, n: int): (r: seq<Color>)
    requires 0 <= start && start + SegmentLength <= |s| && n <= SegmentLength
    ensures |r| == |s| && SegmentShows(r, start, n)
    ensures forall i :: 0 <= i < |s| && !(start <= i < start + SegmentLength) ==> r[i] == s[i]
  {
    seq(|s|, i requires 0 <= i < |s| =>
      if start <= i < start + SegmentLength then SegmentColor(start, n, i) else s[i])
  }

  /** Repainting a segment that already shows n changes nothing. */
  lemma PaintSegmentWhenShown(s: seq<Color>, start: int, n: int)
    requires SegmentShows(s, start, n) && n <= SegmentLength
    ensures PaintSegment(s, start, n) == s
  {
    var r := PaintSegment(s, start, n);
    assert forall i :: 0 <= i < |s| ==> r[i] == s[i];
  }

  /** Painting the segment twice is the same as painting it once with the
      second intensity. */
  lemma PaintSegmentTwice(s: seq<Color>, start: int, n1: int, n2: int)
    requires 0 <= start && start + SegmentLength <= |s| && n1 <= SegmentLength && n2 <= SegmentLength
    ensures PaintSegment(PaintSegment(s, start, n1), start, n2) == PaintSegment(s, start, n2)
  {
    var r1 := PaintSegment(PaintSegment(s, start, n1), start, n2);
    var r2 := PaintSegment(s, start, n2);
    assert forall i :: 0 <= i < |s| ==> r1[i] == r2[i];
  }

  /** Painting one segment keeps a disjoint segment showing what it showed. */
  lemma PaintSegmentKeepsOther(s: seq<Color>, start: int, n: int, start': int, n': int)
    requires 0 <= start && start + SegmentLength <= |s| && n <= SegmentLength
    requires start + SegmentLength <= start' || start' + SegmentLength <= start
    requires SegmentShows(s, start', n')
    ensures SegmentShows(PaintSegment(s, start, n), start', n')
  {
  }

  /** updateNeoPixelBrightness on the room: a manual change turns automatic
      lighting off; every repaint raises the light flag. */
  function Repaint(v: View, manual: bool): (r: View)
    ensures r.room == v.room.(autoLightEnabled := v.room.autoLightEnabled && !manual)
    ensures r.dirty == v.dirty.(light := true)
  {
    var room := if manual then v.room.(autoLightEnabled := false) else v.room;
    View(room, v.dirty.(light := true))
  }

  /** The schedule button on the light screen, with no intensity step taken,
      opens the schedule editor. */
  predicate OpensSchedule(intensity: int, b: Buttons)
  {
    !(b.left && intensity > 0) && !(b.right && intensity < MaxLight) && b.schedule
  }

  /** handleRoomLightControl. A step of one within [0, 4] repaints manually and
      freezes the schedule for the current hour; otherwise the schedule button
      puts the editor's cursor on the current hour. */
  function LightControl(v: View, b: Buttons, hour: int): (r: View)
    requires RoomOk(v.room) && 0 <= hour < HoursPerDay
    ensures RoomOk(r.room)
    ensures -1 <= r.room.lightIntensity - v.room.lightIntensity <= 1
    ensures r.room.lightIntensity < v.room.lightIntensity <==> b.left && v.room.lightIntensity > 0
    ensures r.room.lightIntensity > v.room.lightIntensity <==>
              !(b.left && v.room.lightIntensity > 0) && b.right && v.room.lightIntensity < MaxLight
    ensures r.room.lightIntensity != v.room.lightIntensity ==>
              r.room == v.room.(lightIntensity := r.room.lightIntensity, autoLightEnabled := false, hourOverride := hour)
              && r.dirty == v.dirty.(light := true)
    ensures r.room.lightIntensity == v.room.lightIntensity ==>
              r.dirty == v.dirty
              && r.room == v.room.(selectedHour := if OpensSchedule(v.room.lightIntensity, b) then hour
                                                  else v.room.selectedHour)
  {
    var l := v.room.lightIntensity;
    if b.left && l > 0 then
      var v1 := Repaint(v.(room := v.room.(lightIntensity := l - 1)), true);
      v1.(room := v1.room.(hourOverride := hour))
    else if b.right && l < MaxLight then
      var v1 := Repaint(v.(room := v.room.(lightIntensity := l + 1)), true);
      v1.(room := v1.room.(hourOverride := hour))
    else if b.schedule then
      v.(room := v.room.(selectedHour := hour))
    else
      v
  }

  /** autoAdjustLight: with automatic lighting on and no schedule in force, the
      intensity follows the ambient reading. */
  function AutoAdjustLight(v: View, reading: int): (r: View)
    requires RoomOk(v.room)
    ensures RoomOk(r.room)
    ensures r.room == v.room.(lightIntensity := r.room.lightIntensity)
    ensures r.room.lightIntensity != v.room.lightIntensity <==>
              v.room.autoLightEnabled && !v.room.scheduleActive && MapOutdoorLighting(reading) != v.room.lightIntensity
    ensures r.room.lightIntensity != v.room.lightIntensity ==>
              r.room.lightIntensity == MapOutdoorLighting(reading) && r.dirty == v.dirty.(light := true)
    ensures r.room.lightIntensity == v.room.lightIntensity ==> r == v
  {
    var target := MapOutdoorLighting(reading);
    if v.room.autoLightEnabled && !v.room.scheduleActive && target != v.room.lightIntensity then
      Repaint(v.(room := v.room.(lightIntensity := target)), false)
    else
      v
  }

  /** autoAdjustLight with the unclamped map the source calls: it agrees with
      the corrected one below a reading of 779. */
  function AutoAdjustLightAsWritten(v: View, reading: int): (r: View)
    requires RoomOk(v.room)
    ensures reading < 779 ==> r == AutoAdjustLight(v, reading)
  {
    var target := MapOutdoorLightingAsWritten(reading);
    if v.room.autoLightEnabled && !v.room.scheduleActive && target != v.room.lightIntensity then
      Repaint(v.(room := v.room.(lightIntensity := target)), false)
    else
      v
  }

  /** With automatic light on and no schedule in force, a reading of 779 drives
      the intensity the source computes to -1, outside the strip's range, and
      still raises the light flag. */
  lemma AsWrittenAutoLightLeavesRange(v: View)
    requires RoomOk(v.room) && v.room.autoLightEnabled && !v.room.scheduleActive
    ensures var r := AutoAdjustLightAsWritten(v, 779);
            r.room.lightIntensity == -1 && !RoomOk(r.room) && r.dirty.light
  {
    AsWrittenGoesNegative();
  }

  // ---------------------------------------------------------------------
  // Hourly schedule
  // ---------------------------------------------------------------------

  function PrevHour(h: int): int
  {
    if h == 0 then 23 else h - 1
  }

  function NextHour(h: int): int
  {
    (h + 1) % 24
  }

  /** The cursor moves one hour back or forward around the clock, and the two
      moves undo each other. */
  lemma HourCursorRoundTrip(h: int)
    requires 0 <= h < HoursPerDay
    ensures 0 <= PrevHour(h) < HoursPerDay && 0 <= NextHour(h) < HoursPerDay
    ensures PrevHour(h) == (h + 23) % 24
    ensures NextHour(PrevHour(h)) == h && PrevHour(NextHour(h)) == h
  {
  }

  /** handleRoomSchedule: left and right move the cursor; the schedule button
      writes the current intensity into the selected hour. */
  function ScheduleControl(v: View, b: Buttons): (r: View)
    requires RoomOk(v.room)
    ensures RoomOk(r.room)
    ensures !b.left && !b.right && !b.schedule ==> r == v
    ensures b.left ==> r.room == v.room.(selectedHour := PrevHour(v.room.selectedHour))
    ensures !b.left && b.right ==> r.room == v.room.(selectedHour := NextHour(v.room.selectedHour))
    ensures !b.left && !b.right && b.schedule ==>
              r.room == v.room.(schedule := v.room.schedule[v.room.selectedHour := v.room.lightIntensity],
                                scheduleActive := v.room.scheduleActive || v.room.lightIntensity != 0)
    ensures (b.left || b.right || b.schedule) ==> r.dirty == v.dirty.(schedule := true)
  {
    var room := v.room;
    if b.left then
      View(room.(selectedHour := if room.selectedHour == 0 then 23 else room.selectedHour - 1),
           v.dirty.(schedule := true))
    else if b.right then
      View(room.(selectedHour := (room.selectedHour + 1) % 24), v.dirty.(schedule := true))
    else if b.schedule then
      var s := room.schedule[room.selectedHour := room.lightIntensity];
      View(room.(schedule := s, scheduleActive := if s[room.selectedHour] != 0 then true else room.scheduleActive),
           v.dirty.(schedule := true))
    else
      v
  }

  /** Committing stores the intensity in the selected slot, leaves the other
      23 slots alone, and can set the schedule flag but never clears it. */
  lemma CommitStoresIntensity(v: View, b: Buttons, h: int)
    requires RoomOk(v.room) && !b.left && !b.right && b.schedule
    requires 0 <= h < HoursPerDay
    ensures var r := ScheduleControl(v, b);
            && r.room.schedule[h] == (if h == v.room.selectedHour then v.room.lightIntensity else v.room.schedule[h])
            && (v.room.scheduleActive ==> r.room.scheduleActive)
            && (r.room.scheduleActive <==> v.room.scheduleActive || v.room.lightIntensity != 0)
  {
  }

  /** deactivateSchedule. */
  function DeactivateSchedule(v: View): (r: View)
    ensures r.room == v.room.(scheduleActive := false, lightIntensity := 0)
    ensures r.dirty == v.dirty.(light := true)
  {
    Repaint(v.(room := v.room.(scheduleActive := false, lightIntensity := 0)), false)
  }

  /** resetRoomOverride: the override is gone and the room counts as freshly
      occupied from `now`. */
  function ResetRoomOverride(v: View, now: nat): (r: View)
    ensures r.room == v.room.(hourOverride := NoOverride, inactive := false, peoplePresent := true,
                              lastMotionTime := now)
    ensures r.dirty == v.dirty
  {
    v.(room := v.room.(hourOverride := NoOverride, inactive := false, peoplePresent := true, lastMotionTime := now))
  }

  /** The automation leaves the stored schedule and the screen selection
      alone. */
  predicate KeepsSetup(a: Room, b: Room)
  {
    a.schedule == b.schedule && a.isDisplayed == b.isDisplayed
  }

  /** checkSchedule, run every tick with s the slot of the current hour. */
  function CheckSchedule(v: View, now: nat): (r: View)
    requires RoomOk(v.room)
    ensures RoomOk(r.room) && OnlyRaised(v.dirty, r.dirty) && KeepsSetup(v.room, r.room)
    ensures r.room.lastMotionTime == v.room.lastMotionTime || r.room.lastMotionTime == now
    ensures r.room == v.room.(lightIntensity := r.room.lightIntensity, scheduleActive := r.room.scheduleActive,
                              hourOverride := r.room.hourOverride, inactive := r.room.inactive,
                              peoplePresent := r.room.peoplePresent, lastMotionTime := r.room.lastMotionTime)
    ensures r.dirty == v.dirty.(light := r.dirty.light)
  {
    var h := Hour(now);
    var v1 := ApplySlot(v, h);
    if h != v1.room.hourOverride && v1.room.hourOverride != NoOverride then ResetRoomOverride(v1, now) else v1
  }

  /** The light part of checkSchedule for the slot of hour h. */
  function ApplySlot(v: View, h: int): (r: View)
    requires RoomOk(v.room) && 0 <= h < HoursPerDay
    ensures RoomOk(r.room) && r.dirty == v.dirty.(light := r.dirty.light) && (v.dirty.light ==> r.dirty.light)
    ensures r.room == v.room.(lightIntensity := r.room.lightIntensity, scheduleActive := r.room.scheduleActive)
  {
    var s := v.room.schedule[h];
    if s != 0 && s != v.room.lightIntensity && h != v.room.hourOverride then
      Repaint(v.(room := v.room.(lightIntensity := s, scheduleActive := true)), false)
    else if s == 0 && v.room.scheduleActive then
      DeactivateSchedule(v)
    else
      v
  }

  /** The three rules of checkSchedule, stated on their own. */
  lemma CheckScheduleRules(v: View, now: nat)
    requires RoomOk(v.room)
    ensures var h := Hour(now);
            var s := v.room.schedule[h];
            var r := CheckSchedule(v, now);
            && (s != 0 && s != v.room.lightIntensity && h != v.room.hourOverride ==>
                  r.room.lightIntensity == s && r.room.scheduleActive && r.dirty.light)
            && (s == 0 && v.room.scheduleActive ==>
                  r.room.lightIntensity == 0 && !r.room.scheduleActive && r.dirty.light)
            && (!(s != 0 && s != v.room.lightIntensity && h != v.room.hourOverride) && !(s == 0 && v.room.scheduleActive) ==>
                  r.room.lightIntensity == v.room.lightIntensity && r.room.scheduleActive == v.room.scheduleActive
                  && r.dirty == v.dirty)
            && (v.room.hourOverride != NoOverride && v.room.hourOverride != h ==>
                  r.room.hourOverride == NoOverride && !r.room.inactive && r.room.peoplePresent
                  && r.room.lastMotionTime == now)
            && (v.room.hourOverride == NoOverride || v.room.hourOverride == h ==>
                  r.room.hourOverride == v.room.hourOverride && r.room.inactive == v.room.inactive
                  && r.room.peoplePresent == v.room.peoplePresent && r.room.lastMotionTime == v.room.lastMotionTime)
  {
  }

  // ---------------------------------------------------------------------
  // Occupancy
  // ---------------------------------------------------------------------

  /** handleInactivity past 20 s in the warned state: the light goes off
      (as a manual change) and the room is vacated. */
  function Vacate(v: View): (r: View)
    requires RoomOk(v.room)
    ensures RoomOk(r.room)
    ensures r.room == v.room.(lightIntensity := 0, peoplePresent := false, inactive := false,
                              autoLightEnabled := v.room.autoLightEnabled && v.room.lightIntensity == 0)
    ensures r.dirty == v.dirty.(light := v.dirty.light || v.room.lightIntensity != 0)
  {
    var room := v.room;
    var v1 := if room.lightIntensity != 0 then Repaint(v.(room := room.(lightIntensity := 0)), true) else v;
    v1.(room := v1.room.(peoplePresent := false, inactive := false))
  }

  /** handleInactivity past 15 s not yet warned: the target drops to 18.0,
      the light to 1 if it was brighter and off otherwise (as a manual
      change), and the room is warned. */
  function Warn(v: View): (r: View)
    requires RoomOk(v.room)
    ensures RoomOk(r.room)
    ensures r.room == v.room.(targetTemp := SetbackTarget, inactive := true,
                              lightIntensity := if v.room.lightIntensity > 1 then 1 else 0,
                              autoLightEnabled := v.room.autoLightEnabled && v.room.lightIntensity == 0)
    ensures r.dirty == v.dirty.(temp := v.dirty.temp || v.room.targetTemp != SetbackTarget,
                                light := v.dirty.light || v.room.lightIntensity > 0)
  {
    var room := v.room;
    var v1 := if room.targetTemp != SetbackTarget then View(room.(targetTemp := SetbackTarget), v.dirty.(temp := true)) else v;
    var l := v1.room.lightIntensity;
    var v2 := if l > 0 then Repaint(v1.(room := v1.room.(lightIntensity := if l > 1 then 1 else 0)), true) else v1;
    v2.(room := v2.room.(inactive := true))
  }

  /** handleInactivity: vacate after 20 s once warned, warn after 15 s. */
  function HandleInactivity(v: View, now: nat): (r: View)
    requires RoomOk(v.room) && v.room.lastMotionTime <= now
    ensures RoomOk(r.room) && r.room.lastMotionTime == v.room.lastMotionTime
    ensures OnlyRaised(v.dirty, r.dirty) && KeepsSetup(v.room, r.room)
    ensures now - v.room.lastMotionTime <= WarnAfterMs ==> r == v
    ensures now - v.room.lastMotionTime <= OffAfterMs && v.room.inactive ==> r == v
    ensures now - v.room.lastMotionTime > OffAfterMs && v.room.inactive ==> r == Vacate(v)
    ensures now - v.room.lastMotionTime > WarnAfterMs && !v.room.inactive ==> r == Warn(v)
  {
    var idle := now - v.room.lastMotionTime;
    if idle > OffAfterMs && v.room.inactive then Vacate(v)
    else if idle > WarnAfterMs && !v.room.inactive then Warn(v)
    else v
  }

  /** detectRoomMotion: motion counts only more than 2 s after the last accepted
      motion; then, while someone is present, no schedule is in force and the
      hour is not overridden, the inactivity rules run. */
  function DetectRoomMotion(v: View, now: nat, motion: bool): (r: View)
    requires RoomOk(v.room) && v.room.lastMotionTime <= now
    ensures RoomOk(r.room) && r.room.lastMotionTime <= now && OnlyRaised(v.dirty, r.dirty)
    ensures KeepsSetup(v.room, r.room)
    ensures r.room.lastMotionTime == (if motion && now - v.room.lastMotionTime > DebounceMs then now
                                      else v.room.lastMotionTime)
    ensures motion && now - v.room.lastMotionTime > DebounceMs ==>
              r.room == v.room.(lastMotionTime := now, autoLightEnabled := true, peoplePresent := true)
              && r.dirty == v.dirty
    ensures !(motion && now - v.room.lastMotionTime > DebounceMs) ==>
              r == if v.room.peoplePresent && !v.room.scheduleActive && Hour(now) != v.room.hourOverride
                   then HandleInactivity(v, now) else v
  {
    var v1 :=
      if motion && now - v.room.lastMotionTime > DebounceMs then
        v.(room := v.room.(lastMotionTime := now, autoLightEnabled := true, peoplePresent := true))
      else
        v;
    if v1.room.peoplePresent && !v1.room.scheduleActive && Hour(now) != v1.room.hourOverride then
      HandleInactivity(v1, now)
    else
      v1
  }

  /** Debounce: a second motion signal within 2 s of an accepted one does not
      move lastMotionTime again. */
  lemma MotionDebounce(v: View, t1: nat, t2: nat)
    requires RoomOk(v.room) && v.room.lastMotionTime < t1 - DebounceMs && t1 <= t2 <= t1 + DebounceMs
    ensures var v1 := DetectRoomMotion(v, t1, true);
            && v1.room.lastMotionTime == t1
            && DetectRoomMotion(v1, t2, true).room.lastMotionTime == t1
  {
  }

  /** The occupancy timeline: with someone present, no schedule in force, the
      hour not overridden and no motion since time `last`, a tick at 16 s
      sets the target to 18.0 and dims the light to 1 (or off from 1), and a
      tick at 21 s then turns the light off and marks the room empty. */
  lemma {:induction false} InactivityTimeline(v: View, last: nat)
    requires RoomOk(v.room) && v.room.lastMotionTime == last
    requires v.room.peoplePresent && !v.room.inactive && !v.room.scheduleActive
    requires Hour(last + 16000) != v.room.hourOverride && Hour(last + 21000) != v.room.hourOverride
    ensures var w := DetectRoomMotion(v, last + 16000, false);
            && w.room.targetTemp == SetbackTarget
            && w.room.lightIntensity == (if v.room.lightIntensity > 1 then 1 else 0)
            && w.room.inactive && w.room.peoplePresent
            && (v.room.lightIntensity > 0 ==> !w.room.autoLightEnabled)
            && var x := DetectRoomMotion(w, last + 21000, false);
               x.room.lightIntensity == 0 && !x.room.peoplePresent && !x.room.inactive
  {
    var w := DetectRoomMotion(v, last + 16000, false);
    assert w == HandleInactivity(v, last + 16000);
    var x := DetectRoomMotion(w, last + 21000, false);
    assert x == HandleInactivity(w, last + 21000);
  }

  // ---------------------------------------------------------------------
  // One tick of a room
  // ---------------------------------------------------------------------

  /** What a room samples in one tick: the ambient light reading, its rounded
      temperature in tenths of a degree, and its motion sensor. */
  datatype RoomInputs = RoomInputs(ambient: int, temperature: int, motion: bool)

  /** The automation part of shouldUpdate, in its order: automatic light,
      temperature, schedule, motion. It keeps the room's ranges and only
      raises redraw flags. */
  function Tick(v: View, inp: RoomInputs, now: nat): (r: View)
    requires RoomOk(v.room) && v.room.lastMotionTime <= now
    ensures RoomOk(r.room) && r.room.lastMotionTime <= now
    ensures OnlyRaised(v.dirty, r.dirty) && KeepsSetup(v.room, r.room)
  {
    var v1 := AutoAdjustLight(v, inp.ambient);
    var v2 := AutoUpdateTemperature(v1, inp.temperature);
    var v3 := CheckSchedule(v2, now);
    DetectRoomMotion(v3, now, inp.motion)
  }

  /** The redraw signal of shouldUpdate: a raised flag for the screen shown. */
  predicate NeedsRedraw(d: Dirty, state: SystemState)
    ensures NeedsRedraw(d, state) ==> state != WelcomeScreen && state != RoomMenu
    ensures !d.light && !d.temp && !d.schedule ==> !NeedsRedraw(d, state)
  {
    || (d.light && state == RoomLightControl)
    || (d.temp && state == RoomTempControl)
    || (d.schedule && state == RoomSchedule)
  }

  /** A commit for another hour while the current hour's slot is empty sets
      the schedule flag, and the next check of the schedule clears it again
      and turns the light off. */
  lemma CommitElsewhereThenCheck(v: View, b: Buttons, now: nat)
    requires RoomOk(v.room) && !b.left && !b.right && b.schedule
    requires v.room.lightIntensity != 0 && v.room.selectedHour != Hour(now)
    requires v.room.schedule[Hour(now)] == 0
    ensures var w := ScheduleControl(v, b);
            && w.room.scheduleActive
            && var x := CheckSchedule(w, now);
               !x.room.scheduleActive && x.room.lightIntensity == 0
  {
    var w := ScheduleControl(v, b);
    assert w.room.schedule[Hour(now)] == 0;
  }

  /** The scenario of a scheduled hour: slot 9 holds 2, it is 9 o'clock, the
      light is off and nothing is overridden; after the schedule check the
      light is at 2 and the schedule is in force. */
  lemma ScheduledHourApplies(v: View, now: nat)
    requires RoomOk(v.room) && Hour(now) == 9 && v.room.schedule[9] == 2
    requires v.room.lightIntensity == 0 && v.room.hourOverride == NoOverride
    ensures CheckSchedule(v, now).room.lightIntensity == 2
    ensures CheckSchedule(v, now).room.scheduleActive
  {
  }
}
