/** The sketch of main.cpp: the shared state, the two rooms, setup() and one
    pass of loop(). Each method ends in the home its HomeSpec function
    computes, and keeps both rooms' outputs showing their state. */
module MainLoop {
  import opened Enums
  import opened General
  import opened NavStack
  import opened RoomSpec
  import opened HomeSpec
  import opened Rooms

  class Controller {
    const g: Globals
    const room1: RoomControl
    const room2: RoomControl
    ghost const Repr: set<object>

    ghost function Abs(): Home
      reads this, g, g.stateStack, g.stateStack.stack, room1, room1.schedule, room2, room2.schedule
      requires g.stateStack.Valid()
    {
      Home(room1.Abs(), room2.Abs(), g.DirtyFlags(), g.stateStack.Contents(), g.currentState,
           g.timeAdjusted, g.addedTime, g.lastTimeWheelValue)
    }

    ghost predicate Valid()
      reads this, Repr
    {
      && Repr == {g, g.stateStack, g.stateStack.stack, g.strip, room1, room1.schedule, room2, room2.schedule}
      && g.Valid() && room1.Valid() && room2.Valid()
      && room1 != room2 && room1.schedule != room2.schedule
      && room1.config == Room1Config && room2.config == Room2Config
      && room1.Shown(g) && room2.Shown(g)
      && HomeOk(Abs())
    }

    /** setup(): the shared state, the rooms with their wiring, the welcome
        screen pushed and drawn. */
    constructor ()
      ensures g.Valid()
      ensures Abs() == Setup()
      ensures Valid()
    {
      ConfigsApart();
      var shared := new Globals();
      var r1 := new RoomControl("Room 1", Room1Config);
      var r2 := new RoomControl("Room 2", Room2Config);
      g, room1, room2 := shared, r1, r2;
      Repr := {shared, shared.stateStack, shared.stateStack.stack, shared.strip, r1, r1.schedule, r2, r2.schedule};
      new;
      PowerUpShowsInitialRooms(Room1Config);
      PowerUpShowsInitialRooms(Room2Config);
      assert room1.Shown(g) && room2.Shown(g);
      g.stateStack.Push(WelcomeScreen);
      assert Abs() == Setup();
      DisplayCurrentMenu();
    }

    method DisplayCurrentMenu()
      requires Valid()
      modifies room1`isDisplayed, room2`isDisplayed
      ensures g.Valid()
      ensures Abs() == HomeSpec.DisplayCurrentMenu(old(Abs()))
      ensures Valid()
    {
      if g.currentState == WelcomeScreen {
        room1.isDisplayed := false;
        room2.isDisplayed := false;
      }
    }

    method UpdateStartTime(potValue: int)
      requires Valid() && 0 <= potValue <= MaxAnalog
      modifies g`addedTime, g`lastTimeWheelValue, g`timeAdjusted
      ensures g.Valid()
      ensures Abs() == HomeSpec.UpdateStartTime(old(Abs()), potValue)
      ensures Valid()
    {
      if potValue != g.lastTimeWheelValue {
        g.addedTime := WheelOffset(potValue);
        g.lastTimeWheelValue := potValue;
        g.timeAdjusted := true;
      }
    }

    /** The back button's part of loop(). */
    method HandleBack(back: bool)
      requires Valid()
      modifies g.stateStack
      ensures g.Valid()
      ensures Abs() == HomeSpec.HandleBack(old(Abs()), back)
      ensures Valid()
    {
      if back && g.stateStack.IsHistoryAvailable() {
        g.stateStack.Pop();
      }
    }

    /** A room's shouldUpdate, keeping the other room's outputs shown. */
    method TickRoom(room: RoomControl, other: RoomControl, inp: RoomInputs, now: nat) returns (redraw: bool)
      requires g.strip.Length == StripLength && room != other && Apart(room.config, other.config)
      requires room.Valid() && room.Shown(g) && other.Shown(g) && room.lastMotionTime <= now
      modifies room, g`lightAdjusted, g`tempAdjusted, g`expanderPinStates, g.strip
      ensures room.Valid() && room.Shown(g) && other.Shown(g)
      ensures room.Model(g) == Tick(old(room.Model(g)), inp, now)
      ensures redraw == NeedsRedraw(g.DirtyFlags(), g.currentState)
    {
      ghost var e, s := g.expanderPinStates, g.strip[..];
      redraw := room.ShouldUpdate(g, inp, now);
      ApartRoomsKeepOutputs(e, s, room.config, room.acState, room.lightIntensity,
                            other.config, other.acState, other.lightIntensity);
    }

    method ShouldUpdateRoom1(inp: RoomInputs, now: nat) returns (redraw: bool)
      requires Valid() && MotionBefore(Abs(), now)
      modifies room1, g`lightAdjusted, g`tempAdjusted, g`expanderPinStates, g.strip
      ensures g.Valid()
      ensures Abs() == Tick1(old(Abs()), inp, now)
      ensures Valid() && MotionBefore(Abs(), now)
      ensures redraw == NeedsRedraw(g.DirtyFlags(), g.currentState)
    {
      ConfigsApart();
      redraw := TickRoom(room1, room2, inp, now);
    }

    method ShouldUpdateRoom2(inp: RoomInputs, now: nat) returns (redraw: bool)
      requires Valid() && MotionBefore(Abs(), now)
      modifies room2, g`lightAdjusted, g`tempAdjusted, g`expanderPinStates, g.strip
      ensures g.Valid()
      ensures Abs() == Tick2(old(Abs()), inp, now)
      ensures Valid() && MotionBefore(Abs(), now)
      ensures redraw == NeedsRedraw(g.DirtyFlags(), g.currentState)
    {
      ConfigsApart();
      redraw := TickRoom(room2, room1, inp, now);
    }

    /** The redraw test of loop(), short-circuited as in C. */
    method RedrawIfNeeded(in1: RoomInputs, in2: RoomInputs, now: nat) returns (redrawn: bool)
      requires Valid() && MotionBefore(Abs(), now)
      modifies room1, room2, g`lightAdjusted, g`tempAdjusted, g`scheduleAdjusted
      modifies g`expanderPinStates, g`currentState, g.strip
      ensures g.Valid()
      ensures (Abs(), redrawn) == Redraw(old(Abs()), in1, in2, now)
      ensures Valid()
    {
      ConfigsApart();
      var top := g.stateStack.TopState();
      if g.currentState != top {
        RefreshScreen();
        return true;
      }
      redrawn := ShouldUpdateRoom1(in1, now);
      if redrawn {
        RefreshScreen();
        return;
      }
      redrawn := ShouldUpdateRoom2(in2, now);
      if redrawn {
        RefreshScreen();
      }
    }

    /** The body of loop()'s redraw: take the top of the stack, draw it,
        clear the flags. */
    method RefreshScreen()
      requires Valid()
      modifies g`currentState, g`lightAdjusted, g`tempAdjusted, g`scheduleAdjusted
      modifies room1`isDisplayed, room2`isDisplayed
      ensures g.Valid()
      ensures Abs() == Refresh(old(Abs()))
      ensures Valid()
    {
      g.currentState := g.stateStack.TopState();
      DisplayCurrentMenu();
      ClearDirty();
    }

    /** The three flags cleared once the screen is redrawn. */
    method ClearDirty()
      requires Valid()
      modifies g`lightAdjusted, g`tempAdjusted, g`scheduleAdjusted
      ensures g.Valid()
      ensures Abs() == old(Abs()).(dirty := NoneDirty)
      ensures Valid()
    {
      g.lightAdjusted := false;
      g.tempAdjusted := false;
      g.scheduleAdjusted := false;
    }

    /** handleWelcomeScreen, with the other room deselected. */
    method HandleWelcomeScreen(b: Buttons)
      requires Valid()
      modifies room1`isDisplayed, room2`isDisplayed, g.stateStack, g.stateStack.stack
      ensures g.Valid()
      ensures Abs() == HomeSpec.HandleWelcomeScreen(old(Abs()), b)
      ensures Valid()
    {
      if b.left {
        ShowRoom1();
      } else if b.right {
        ShowRoom2();
      }
    }

    /** Room 1 displayed and room 2 not, its menu pushed. */
    method ShowRoom1()
      requires Valid()
      modifies room1`isDisplayed, room2`isDisplayed, g.stateStack, g.stateStack.stack
      ensures g.Valid()
      ensures Abs() == HomeSpec.HandleWelcomeScreen(old(Abs()), Buttons(true, false, false, false))
      ensures Valid()
    {
      room1.Display(g);
      room2.isDisplayed := false;
    }

    /** Room 2 displayed and room 1 not, its menu pushed. */
    method ShowRoom2()
      requires Valid()
      modifies room1`isDisplayed, room2`isDisplayed, g.stateStack, g.stateStack.stack
      ensures g.Valid()
      ensures Abs() == HomeSpec.HandleWelcomeScreen(old(Abs()), Buttons(false, true, false, false))
      ensures Valid()
    {
      room2.Display(g);
      room1.isDisplayed := false;
    }

    /** The room screens' handlers on `room`, keeping `other` shown. */
    method HandleRoomScreen(room: RoomControl, other: RoomControl, b: Buttons, now: nat)
      requires g.Valid() && room != other && room.schedule != other.schedule && Apart(room.config, other.config)
      requires room.Valid() && room.Shown(g) && other.Shown(g)
      modifies room, room.schedule, g`lightAdjusted, g`tempAdjusted, g`scheduleAdjusted, g.strip
      modifies g.stateStack, g.stateStack.stack
      ensures g.Valid() && room.Valid() && room.Shown(g) && other.Shown(g)
      ensures room.Model(g) == RoomStep(g.currentState, old(room.Model(g)), b, Hour(now))
      ensures g.stateStack.Contents() ==
                RoomStepStack(g.currentState, old(g.stateStack.Contents()), old(room.lightIntensity), b)
    {
      match g.currentState {
        case RoomMenu =>
          room.HandleRoomMenu(g, b);
        case RoomLightControl =>
          LightScreen(room, other, b, now);
        case RoomTempControl =>
          room.HandleRoomTempControl(g, b);
        case RoomSchedule =>
          room.HandleRoomSchedule(g, b);
        case WelcomeScreen =>
      }
    }

    /** The light screen's handler, keeping the other room's segment. */
    method LightScreen(room: RoomControl, other: RoomControl, b: Buttons, now: nat)
      requires g.Valid() && room != other && Apart(room.config, other.config)
      requires room.Valid() && room.Shown(g) && other.Shown(g)
      modifies room, g`lightAdjusted, g.strip, g.stateStack, g.stateStack.stack
      ensures g.Valid() && room.Valid() && room.Shown(g) && other.Shown(g)
      ensures room.Model(g) == LightControl(old(room.Model(g)), b, Hour(now))
      ensures g.stateStack.Contents() ==
                RoomStepStack(RoomLightControl, old(g.stateStack.Contents()), old(room.lightIntensity), b)
    {
      ghost var s := g.strip[..];
      room.HandleRoomLightControl(g, b, now);
      PaintSegmentKeepsOther(s, room.config.lightStripStartIndex, room.lightIntensity,
                             other.config.lightStripStartIndex, other.lightIntensity);
    }

    /** handleCurrentMenu: the handler of the screen drawn, on the room
        selected. */
    method HandleCurrentMenu(b: Buttons, now: nat)
      requires Valid()
      modifies room1, room1.schedule, room2, room2.schedule, g`lightAdjusted, g`tempAdjusted
      modifies g`scheduleAdjusted, g.strip, g.stateStack, g.stateStack.stack
      ensures g.Valid()
      ensures Abs() == HomeSpec.HandleCurrentMenu(old(Abs()), b, now)
      ensures Valid()
    {
      ConfigsApart();
      if g.currentState == WelcomeScreen {
        HandleWelcomeScreen(b);
      } else if room1.isDisplayed {
        ghost var h := Abs();
        HandleRoomScreen(room1, room2, b, now);
        assert room2.Abs() == h.room2;
        assert Abs() == HomeSpec.HandleCurrentMenu(h, b, now);
      } else {
        ghost var h := Abs();
        HandleRoomScreen(room2, room1, b, now);
        assert room1.Abs() == h.room1;
        assert Abs() == HomeSpec.HandleCurrentMenu(h, b, now);
      }
    }

    /** displayCurrentTime: whether the clock is rewritten, and its text. */
    method DisplayCurrentTime(now: nat) returns (refreshed: bool, clock: string)
      requires Valid()
      modifies g`timeAdjusted
      ensures g.Valid()
      ensures (Abs(), refreshed) == HomeSpec.DisplayCurrentTime(old(Abs()), now)
      ensures clock == ClockText(now)
      ensures Valid()
    {
      clock := ClockText(now);
      if now % MsPerMinute > MsPerSecond && !g.timeAdjusted {
        return false, clock;
      }
      g.timeAdjusted := false;
      refreshed := true;
    }

    /** One pass of loop(), `millis` being the uptime it runs at. */
    method Loop(b: Buttons, potValue: int, millis: nat, in1: RoomInputs, in2: RoomInputs)
      requires Valid() && 0 <= potValue <= MaxAnalog
      requires MotionBefore(Abs(), LoopTime(Abs(), potValue, millis))
      modifies Repr
      ensures g.Valid()
      ensures Abs() == HomeSpec.Loop(old(Abs()), b, potValue, millis, in1, in2)
      ensures Valid()
    {
      UpdateStartTime(potValue);
      var now := CurrentTime(millis, g.addedTime);
      HandleBack(b.back);
      var redrawn := RedrawIfNeeded(in1, in2, now);
      HandleCurrentMenu(b, now);
      var refreshed, clock := DisplayCurrentTime(now);
    }
  }
}
