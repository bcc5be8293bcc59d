/** RoomControl: one room's automation, performed in place on the room's
    fields and on the shared state (redraw flags, expander byte, light strip,
    navigation stack). Every method ends in the state the matching function of
    RoomSpec computes, and keeps the expander bits and the strip segment
    showing the room's thermostat state and intensity. */
module Rooms {
  import opened Enums
  import opened General
  import opened NavStack
  import opened RoomSpec

  class RoomControl {
    const name: string
    const config: RoomConfig
    var currentTemp: int
    var targetTemp: int
    var lightIntensity: int
    var selectedHour: int
    var hourOverride: int
    var lastMotionTime: nat
    var peoplePresent: bool
    var inactive: bool
    var scheduleActive: bool
    var autoLightEnabled: bool
    var isDisplayed: bool
    const schedule: array<int>
    var acState: ACState

    ghost function Abs(): Room
      reads this, schedule
    {
      Room(currentTemp, targetTemp, acState, lightIntensity, selectedHour, hourOverride, lastMotionTime,
           peoplePresent, inactive, scheduleActive, autoLightEnabled, isDisplayed, schedule[..])
    }

    ghost function Model(g: Globals): View
      reads this, schedule, g
    {
      View(Abs(), g.DirtyFlags())
    }

    ghost predicate Valid()
      reads this, schedule
    {
      ConfigOk(config) && schedule.Length == HoursPerDay && RoomOk(Abs())
    }

    /** The room's expander bits show its thermostat state and its strip
        segment shows its intensity. */
    ghost predicate Shown(g: Globals)
      reads this`acState, this`lightIntensity, g`expanderPinStates, g.strip
    {
      && ConfigOk(config) && g.strip.Length == StripLength
      && OutputsMatch(g.expanderPinStates, config, acState)
      && SegmentShows(g.strip[..], config.lightStripStartIndex, lightIntensity)
    }

    constructor (roomName: string, roomConfig: RoomConfig)
      requires ConfigOk(roomConfig)
      ensures Valid() && fresh(schedule)
      ensures name == roomName && config == roomConfig
      ensures Abs() == InitialRoom()
    {
      name, config := roomName, roomConfig;
      currentTemp, targetTemp := 0, DefaultTarget;
      lightIntensity, selectedHour, hourOverride := 0, 0, NoOverride;
      lastMotionTime := 0;
      peoplePresent, inactive, scheduleActive, autoLightEnabled, isDisplayed := false, false, false, false, false;
      schedule := new int[HoursPerDay](_ => 0);
      acState := Off;
    }

    /** display: this room becomes the one on screen and its menu is pushed. */
    method Display(g: Globals)
      requires g.Valid()
      modifies this`isDisplayed, g.stateStack, g.stateStack.stack
      ensures g.Valid()
      ensures isDisplayed
      ensures g.stateStack.Contents() == Pushed(old(g.stateStack.Contents()), RoomMenu)
    {
      isDisplayed := true;
      g.stateStack.Push(RoomMenu);
    }

    /** handleRoomMenu: left opens light control, otherwise right opens
        temperature control. */
    method HandleRoomMenu(g: Globals, b: Buttons)
      requires g.Valid()
      modifies g.stateStack, g.stateStack.stack
      ensures g.Valid()
      ensures g.stateStack.Contents() ==
                if b.left then Pushed(old(g.stateStack.Contents()), RoomLightControl)
                else if b.right then Pushed(old(g.stateStack.Contents()), RoomTempControl)
                else old(g.stateStack.Contents())
    {
      if b.left {
        g.stateStack.Push(RoomLightControl);
      } else if b.right {
        g.stateStack.Push(RoomTempControl);
      }
    }

    // -------------------------------------------------------------------
    // Thermostat
    // -------------------------------------------------------------------

    method HandleRoomTempControl(g: Globals, b: Buttons)
      requires Valid()
      modifies this`targetTemp, g`tempAdjusted
      ensures Valid()
      ensures Model(g) == TempControl(old(Model(g)), b)
    {
      if b.left && targetTemp > MinTarget {
        targetTemp := targetTemp - TempStep;
        g.tempAdjusted := true;
      } else if b.right && targetTemp < MaxTarget {
        targetTemp := targetTemp + TempStep;
        g.tempAdjusted := true;
      }
    }

    method SetACState(g: Globals, state: ACState)
      requires ConfigOk(config)
      modifies this`acState, g`expanderPinStates
      ensures acState == state
      ensures g.expanderPinStates == DriveOutputs(old(g.expanderPinStates), config, state)
      ensures OutputsMatch(g.expanderPinStates, config, state)
    {
      match state {
        case Heating =>
          g.SetExpanderPin(config.heatingPin, true);
          g.SetExpanderPin(config.coolingPin, false);
        case Cooling =>
          g.SetExpanderPin(config.heatingPin, false);
          g.SetExpanderPin(config.coolingPin, true);
        case Off =>
          g.SetExpanderPin(config.heatingPin, false);
          g.SetExpanderPin(config.coolingPin, false);
      }
      acState := state;
    }

    /** adjustAC: the outputs are written only when the state changes. */
    method AdjustAC(g: Globals)
      requires Valid() && Shown(g)
      modifies this`acState, g`expanderPinStates
      ensures Valid() && Shown(g)
      ensures Model(g) == RoomSpec.AdjustAC(old(Model(g)))
      ensures g.expanderPinStates == DriveOutputs(old(g.expanderPinStates), config, acState)
      ensures acState == old(acState) ==> g.expanderPinStates == old(g.expanderPinStates)
    {
      ghost var shown := g.strip[..];
      if currentTemp < targetTemp && acState != Heating {
        SetACState(g, Heating);
      } else if currentTemp > targetTemp && acState != Cooling {
        SetACState(g, Cooling);
      } else if currentTemp == targetTemp && acState != Off {
        SetACState(g, Off);
      } else {
        DriveOutputsWhenMatching(g.expanderPinStates, config, acState);
      }
      assert g.strip[..] == shown;
    }

    /** autoUpdateTemperature, given the rounded reading in tenths of a degree. */
    method AutoUpdateTemperature(g: Globals, temp: int)
      requires Valid() && Shown(g)
      modifies this`currentTemp, this`acState, g`tempAdjusted, g`expanderPinStates
      ensures Valid() && Shown(g)
      ensures Model(g) == RoomSpec.AutoUpdateTemperature(old(Model(g)), temp)
      ensures g.expanderPinStates == DriveOutputs(old(g.expanderPinStates), config, acState)
    {
      if temp != currentTemp {
        currentTemp := temp;
        g.tempAdjusted := true;
      }
      AdjustAC(g);
    }

    // -------------------------------------------------------------------
    // Light
    // -------------------------------------------------------------------

    /** updateNeoPixelBrightness: clear the room's four pixels, then light the
        first lightIntensity of them green. */
    method UpdateNeoPixelBrightness(g: Globals, manual: bool)
      requires Valid() && g.strip.Length == StripLength
      modifies this`autoLightEnabled, g`lightAdjusted, g.strip
      ensures Valid() && Shown(g) == OutputsMatch(g.expanderPinStates, config, acState)
      ensures Model(g) == Repaint(old(Model(g)), manual)
      ensures g.strip[..] == PaintSegment(old(g.strip[..]), config.lightStripStartIndex, lightIntensity)
    {
      if manual {
        autoLightEnabled := false;
      }
      ghost var room := Abs();
      var startIndex := config.lightStripStartIndex;
      var endIndex := startIndex + SegmentLength;
      var i := startIndex;
      while i < endIndex
        invariant startIndex <= i <= endIndex
        invariant Abs() == room && g.DirtyFlags() == old(g.DirtyFlags())
        invariant forall k :: 0 <= k < g.strip.Length ==>
                    g.strip[k] == (if startIndex <= k < i then Black else old(g.strip[k]))
      {
        g.strip[i] := Black;
        i := i + 1;
      }
      i := startIndex;
      while i < startIndex + lightIntensity
        invariant startIndex <= i <= startIndex + lightIntensity
        invariant Abs() == room && g.DirtyFlags() == old(g.DirtyFlags())
        invariant forall k :: 0 <= k < g.strip.Length ==>
                    g.strip[k] == (if startIndex <= k < i then Green
                                   else if startIndex <= k < endIndex then Black
                                   else old(g.strip[k]))
      {
        g.strip[i] := Green;
        i := i + 1;
      }
      g.lightAdjusted := true;
      assert g.strip[..] == PaintSegment(old(g.strip[..]), startIndex, lightIntensity);

    }

    /** handleRoomLightControl; `now` is the virtual time of this tick. */
    method HandleRoomLightControl(g: Globals, b: Buttons, now: nat)
      requires Valid() && g.Valid() && Shown(g)
      modifies this`lightIntensity, this`autoLightEnabled, this`hourOverride, this`selectedHour
      modifies g`lightAdjusted, g.strip, g.stateStack, g.stateStack.stack
      ensures Valid() && g.Valid() && Shown(g)
      ensures Model(g) == LightControl(old(Model(g)), b, Hour(now))
      ensures g.strip[..] == PaintSegment(old(g.strip[..]), config.lightStripStartIndex, lightIntensity)
      ensures g.stateStack.Contents() ==
                if OpensSchedule(old(lightIntensity), b) then Pushed(old(g.stateStack.Contents()), RoomSchedule)
                else old(g.stateStack.Contents())
    {
      if b.left && lightIntensity > 0 {
        SetManualIntensity(g, lightIntensity - 1, Hour(now));
      } else if b.right && lightIntensity < MaxLight {
        SetManualIntensity(g, lightIntensity + 1, Hour(now));
      } else {
        PaintSegmentWhenShown(g.strip[..], config.lightStripStartIndex, lightIntensity);
        OpenSchedule(g, b.schedule, Hour(now));
      }
    }

    /** The schedule button on the light screen: the editor opens on the
        current hour. */
    method OpenSchedule(g: Globals, pressed: bool, hour: int)
      requires Valid() && g.Valid() && Shown(g) && 0 <= hour < HoursPerDay
      modifies this`selectedHour, g.stateStack, g.stateStack.stack
      ensures Valid() && g.Valid() && Shown(g)
      ensures Abs() == if pressed then old(Abs()).(selectedHour := hour) else old(Abs())
      ensures g.stateStack.Contents() ==
                if pressed then Pushed(old(g.stateStack.Contents()), RoomSchedule) else old(g.stateStack.Contents())
    {
      if pressed {
        g.stateStack.Push(RoomSchedule);
        selectedHour := hour;
      }
    }

    /** One step of the light buttons: the new intensity is shown, automatic
        light is switched off and the hour is marked as overridden. */
    method SetManualIntensity(g: Globals, n: int, hour: int)
      requires Valid() && Shown(g) && 0 <= n <= MaxLight && 0 <= hour < HoursPerDay
      modifies this`lightIntensity, this`autoLightEnabled, this`hourOverride, g`lightAdjusted, g.strip
      ensures Valid() && Shown(g)
      ensures Abs() == old(Abs()).(lightIntensity := n, autoLightEnabled := false, hourOverride := hour)
      ensures g.DirtyFlags() == old(g.DirtyFlags()).(light := true)
      ensures g.strip[..] == PaintSegment(old(g.strip[..]), config.lightStripStartIndex, n)
    {
      lightIntensity := n;
      UpdateNeoPixelBrightness(g, true);
      hourOverride := hour;
    }

    /** autoAdjustLight, given the ambient light reading. */
    method AutoAdjustLight(g: Globals, reading: int)
      requires Valid() && Shown(g)
      modifies this`lightIntensity, this`autoLightEnabled, g`lightAdjusted, g.strip
      ensures Valid() && Shown(g)
      ensures Model(g) == RoomSpec.AutoAdjustLight(old(Model(g)), reading)
      ensures g.strip[..] == PaintSegment(old(g.strip[..]), config.lightStripStartIndex, lightIntensity)
    {
      var targetIntensity := MapOutdoorLighting(reading);
      if autoLightEnabled && !scheduleActive && targetIntensity != lightIntensity {
        lightIntensity := targetIntensity;
        UpdateNeoPixelBrightness(g, false);
      } else {
        PaintSegmentWhenShown(g.strip[..], config.lightStripStartIndex, lightIntensity);
      }
    }

    // -------------------------------------------------------------------
    // Schedule
    // -------------------------------------------------------------------

    method HandleRoomSchedule(g: Globals, b: Buttons)
      requires Valid()
      modifies this`selectedHour, this`scheduleActive, schedule, g`scheduleAdjusted
      ensures Valid()
      ensures Model(g) == ScheduleControl(old(Model(g)), b)
    {
      if b.left {
        selectedHour := if selectedHour == 0 then 23 else selectedHour - 1;
        g.scheduleAdjusted := true;
      } else if b.right {
        selectedHour := (selectedHour + 1) % 24;
        g.scheduleAdjusted := true;
      } else if b.schedule {
        schedule[selectedHour] := lightIntensity;
        if schedule[selectedHour] != 0 {
          scheduleActive := true;
        }
        g.scheduleAdjusted := true;
      }
    }

    method DeactivateSchedule(g: Globals)
      requires Valid() && g.strip.Length == StripLength
      modifies this`scheduleActive, this`lightIntensity, this`autoLightEnabled, g`lightAdjusted, g.strip
      ensures Valid()
      ensures Model(g) == RoomSpec.DeactivateSchedule(old(Model(g)))
      ensures g.strip[..] == PaintSegment(old(g.strip[..]), config.lightStripStartIndex, lightIntensity)
    {
      scheduleActive := false;
      lightIntensity := 0;
      UpdateNeoPixelBrightness(g, false);
    }

    method ResetRoomOverride(now: nat)
      modifies this`hourOverride, this`inactive, this`peoplePresent, this`lastMotionTime
      ensures Abs() == RoomSpec.ResetRoomOverride(View(old(Abs()), Dirty(false, false, false)), now).room
    {
      hourOverride := NoOverride;
      inactive := false;
      peoplePresent := true;
      lastMotionTime := now;
    }

    /** checkSchedule; `now` is the virtual time of this tick. */
    method CheckSchedule(g: Globals, now: nat)
      requires Valid() && Shown(g)
      modifies this`lightIntensity, this`scheduleActive, this`autoLightEnabled, this`hourOverride
      modifies this`inactive, this`peoplePresent, this`lastMotionTime, g`lightAdjusted, g.strip
      ensures Valid() && Shown(g)
      ensures Model(g) == RoomSpec.CheckSchedule(old(Model(g)), now)
      ensures g.strip[..] == PaintSegment(old(g.strip[..]), config.lightStripStartIndex, lightIntensity)
    {
      var currentHour := Hour(now);
      var scheduledLight := schedule[currentHour];
      var shouldUpdate := scheduledLight != 0 && scheduledLight != lightIntensity;
      if shouldUpdate && currentHour != hourOverride {
        lightIntensity := scheduledLight;
        scheduleActive := true;
        UpdateNeoPixelBrightness(g, false);
      } else if scheduledLight == 0 && scheduleActive {
        DeactivateSchedule(g);
      } else {
        PaintSegmentWhenShown(g.strip[..], config.lightStripStartIndex, lightIntensity);
      }
      if currentHour != hourOverride && hourOverride != NoOverride {
        ResetRoomOverride(now);
      }
    }

    // -------------------------------------------------------------------
    // Occupancy
    // -------------------------------------------------------------------

    method HandleInactivity(g: Globals, now: nat)
      requires Valid() && Shown(g) && lastMotionTime <= now
      modifies this`targetTemp, this`lightIntensity, this`autoLightEnabled, this`peoplePresent, this`inactive
      modifies g`tempAdjusted, g`lightAdjusted, g.strip
      ensures Valid() && Shown(g)
      ensures Model(g) == RoomSpec.HandleInactivity(old(Model(g)), now)
      ensures g.strip[..] == PaintSegment(old(g.strip[..]), config.lightStripStartIndex, lightIntensity)
    {
      var timeDiff := now - lastMotionTime;
      if timeDiff > OffAfterMs && inactive {
        Vacate(g);
      } else if timeDiff > WarnAfterMs && !inactive {
        Warn(g);
      } else {
        PaintSegmentWhenShown(g.strip[..], config.lightStripStartIndex, lightIntensity);
      }
    }

    /** The vacating branch of handleInactivity. */
    method Vacate(g: Globals)
      requires Valid() && Shown(g)
      modifies this`lightIntensity, this`autoLightEnabled, this`peoplePresent, this`inactive
      modifies g`lightAdjusted, g.strip
      ensures Valid() && Shown(g)
      ensures Model(g) == RoomSpec.Vacate(old(Model(g)))
      ensures g.strip[..] == PaintSegment(old(g.strip[..]), config.lightStripStartIndex, lightIntensity)
    {
      if lightIntensity != 0 {
        lightIntensity := 0;
        UpdateNeoPixelBrightness(g, true);
      } else {
        PaintSegmentWhenShown(g.strip[..], config.lightStripStartIndex, lightIntensity);
      }
      peoplePresent := false;
      inactive := false;
    }

    /** The warning's light step: down to 1 if brighter, else off. */
    method Dim(g: Globals)
      requires Valid() && Shown(g) && lightIntensity > 0
      modifies this`lightIntensity, this`autoLightEnabled, g`lightAdjusted, g.strip
      ensures Valid() && Shown(g)
      ensures Model(g) == old(Model(g)).(room := old(Abs()).(lightIntensity := if old(lightIntensity) > 1 then 1 else 0,
                                                             autoLightEnabled := false),
                                          dirty := old(g.DirtyFlags()).(light := true))
      ensures g.strip[..] == PaintSegment(old(g.strip[..]), config.lightStripStartIndex, lightIntensity)
    {
      lightIntensity := if lightIntensity > 1 then 1 else 0;
      UpdateNeoPixelBrightness(g, true);
    }

    /** The warning branch of handleInactivity. */
    method Warn(g: Globals)
      requires Valid() && Shown(g)
      modifies this`targetTemp, this`lightIntensity, this`autoLightEnabled, this`inactive
      modifies g`tempAdjusted, g`lightAdjusted, g.strip
      ensures Valid() && Shown(g)
      ensures Model(g) == RoomSpec.Warn(old(Model(g)))
      ensures g.strip[..] == PaintSegment(old(g.strip[..]), config.lightStripStartIndex, lightIntensity)
    {
      if targetTemp != SetbackTarget {
        targetTemp := SetbackTarget;
        g.tempAdjusted := true;
      }
      if lightIntensity > 0 {
        Dim(g);
      } else {
        PaintSegmentWhenShown(g.strip[..], config.lightStripStartIndex, lightIntensity);
      }
      inactive := true;
    }

    /** detectRoomMotion, given the motion sensor's reading. */
    method DetectRoomMotion(g: Globals, now: nat, motionDetected: bool)
      requires Valid() && Shown(g) && lastMotionTime <= now
      modifies this`lastMotionTime, this`autoLightEnabled, this`peoplePresent, this`targetTemp
      modifies this`lightIntensity, this`inactive, g`tempAdjusted, g`lightAdjusted, g.strip
      ensures Valid() && Shown(g)
      ensures Model(g) == RoomSpec.DetectRoomMotion(old(Model(g)), now, motionDetected)
      ensures g.strip[..] == PaintSegment(old(g.strip[..]), config.lightStripStartIndex, lightIntensity)
    {
      var timeDiff := now - lastMotionTime;
      if motionDetected && timeDiff > DebounceMs {
        lastMotionTime := now;
        autoLightEnabled := true;
        peoplePresent := true;
      }
      if peoplePresent && !scheduleActive && Hour(now) != hourOverride {
        HandleInactivity(g, now);
      } else {
        PaintSegmentWhenShown(g.strip[..], config.lightStripStartIndex, lightIntensity);
      }
    }

    /** shouldUpdate: run the room's automation for this tick, then report
        whether the screen shown needs a redraw. */
    method ShouldUpdate(g: Globals, inp: RoomInputs, now: nat) returns (redraw: bool)
      requires Valid() && Shown(g) && lastMotionTime <= now
      modifies this, g`lightAdjusted, g`tempAdjusted, g`expanderPinStates, g.strip
      ensures Valid() && Shown(g)
      ensures Model(g) == Tick(old(Model(g)), inp, now)
      ensures redraw == NeedsRedraw(g.DirtyFlags(), g.currentState)
      ensures g.strip[..] == PaintSegment(old(g.strip[..]), config.lightStripStartIndex, lightIntensity)
      ensures g.expanderPinStates == DriveOutputs(old(g.expanderPinStates), config, acState)
    {
      ghost var s0 := g.strip[..];
      AutoAdjustLight(g, inp.ambient);
      ghost var s1 := g.strip[..];
      ghost var l1 := lightIntensity;
      AutoUpdateTemperature(g, inp.temperature);
      CheckSchedule(g, now);
      ghost var s2 := g.strip[..];
      ghost var l2 := lightIntensity;
      DetectRoomMotion(g, now, inp.motion);
      PaintSegmentTwice(s0, config.lightStripStartIndex, l1, l2);
      PaintSegmentTwice(s0, config.lightStripStartIndex, l2, lightIntensity);
      if g.lightAdjusted && g.currentState == RoomLightControl {
        return true;
      }
      if g.tempAdjusted && g.currentState == RoomTempControl {
        return true;
      }
      if g.scheduleAdjusted && g.currentState == RoomSchedule {
        return true;
      }
      return false;
    }
  }
}
