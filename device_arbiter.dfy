/** The once-per-tick guess of which device the player is using
    (InputTools/InputStack.cs:405-445 and the older InputTools/InputToolsAPI.cs:79-114).

    The game's raw polling (gamepad activity, pressed key count, mouse buttons, cursor
    and scroll positions) arrives as one Sample per call. Cursor positions are a type
    parameter P: they are only ever compared for equality. */
module DeviceArbiter {
  import opened InputTypes
  import Queries

  /** What the game reports at the moment of the call. */
  datatype Sample<P> = Sample(
    gamePadPressed: bool,
    gamePadHeld: bool,
    thumbstickInMotion: bool,
    pressedKeyCount: nat,
    leftButton: bool,
    middleButton: bool,
    rightButton: bool,
    xButton1: bool,
    xButton2: bool,
    mousePos: P,
    scroll: int,
    horizontalScroll: int,
    lastCursorMotionWasMouse: bool,
    ticks: int)

  /** The shared fields the arbiter reads and updates. */
  datatype Tracker<P> = Tracker(
    lastTickUpdated: int,
    lastDevice: InputDevice,
    lastMousePos: P,
    lastScroll: int,
    lastHorizontalScroll: int,
    mouseMovedLastTick: bool,
    wheelMovedLastTick: bool)

  /** The events one update raises, in the order it raises them. The wheel event carries
      (horizontal, vertical) as GetMouseWheelPos does (InputTools/InputStack.cs:898-901). */
  datatype Notice = DeviceChanged(device: InputDevice) | CursorMoved(source: InputDevice) | WheelMoved(horizontal: int, vertical: int)

  /** The answer of one call, the tracker state after it and the events it raised. */
  datatype Update<P> = Update(device: InputDevice, next: Tracker<P>, notices: seq<Notice>)

  predicate GamePadActive<P>(s: Sample<P>) {
    s.gamePadPressed || s.gamePadHeld || s.thumbstickInMotion
  }

  predicate KeyboardActive<P>(s: Sample<P>) {
    s.pressedKeyCount > 0
  }

  /** A mouse button is down, the mouse itself moved the cursor, or a wheel turned. */
  predicate MouseActive<P(==)>(t: Tracker<P>, s: Sample<P>) {
    || s.leftButton || s.middleButton || s.rightButton || s.xButton1 || s.xButton2
    || (s.mousePos != t.lastMousePos && s.lastCursorMotionWasMouse)
    || s.scroll != t.lastScroll
    || s.horizontalScroll != t.lastHorizontalScroll
  }

  /** Whether the sample shows activity on device d. */
  predicate Active<P(==)>(t: Tracker<P>, s: Sample<P>, d: InputDevice) {
    match d
    case Controller => GamePadActive(s)
    case Keyboard => KeyboardActive(s)
    case Mouse => MouseActive(t, s)
    case NoDevice => false
  }

  /** The precedence of the devices: the controller outranks the keyboard, which outranks the mouse. */
  function Rank(d: InputDevice): nat {
    match d
    case Controller => 3
    case Keyboard => 2
    case Mouse => 1
    case NoDevice => 0
  }

  /** The device chosen for a fresh tick (InputTools/InputStack.cs:411-425). */
  function NextDevice<P(==)>(t: Tracker<P>, s: Sample<P>): InputDevice {
    if GamePadActive(s) then Controller
    else if KeyboardActive(s) then Keyboard
    else if MouseActive(t, s) then Mouse
    else t.lastDevice
  }

  /** The chosen device is the highest-ranked device showing activity; with no activity at
      all the previous device is kept. */
  lemma NextDeviceIsHighestActive<P>(t: Tracker<P>, s: Sample<P>)
    ensures (exists d :: Active(t, s, d)) ==>
      && Active(t, s, NextDevice(t, s))
      && forall d :: Active(t, s, d) ==> Rank(d) <= Rank(NextDevice(t, s))
    ensures (forall d :: !Active(t, s, d)) ==> NextDevice(t, s) == t.lastDevice
  {
    if exists d :: Active(t, s, d) {
      var e :| Active(t, s, e);
      assert Active(t, s, NextDevice(t, s)) by {
        match e
        case Controller =>
        case Keyboard =>
        case Mouse =>
      }
    } else {
      assert !Active(t, s, Controller) && !Active(t, s, Keyboard) && !Active(t, s, Mouse);
    }
  }

  /** The device answer is NoDevice only when it was NoDevice before and nothing was touched. */
  lemma NextDeviceNoneOnlyWhenIdle<P>(t: Tracker<P>, s: Sample<P>)
    ensures NextDevice(t, s) == NoDevice <==>
      t.lastDevice == NoDevice && !Active(t, s, Controller) && !Active(t, s, Keyboard) && !Active(t, s, Mouse)
  {
  }

  /** The events of a fresh tick: a device change only on a transition, then a cursor event
      when the cursor moved, then a wheel event when a wheel turned. */
  function Notices<P(==)>(t: Tracker<P>, s: Sample<P>, d: InputDevice, moved: bool, wheel: bool): seq<Notice> {
    RaisedIf(t.lastDevice != d, DeviceChanged(d))
    + RaisedIf(moved, CursorMoved(d))
    + RaisedIf(wheel, WheelMoved(s.horizontalScroll, s.scroll))
  }

  /** The event n when its condition holds, else nothing. */
  function RaisedIf(condition: bool, n: Notice): seq<Notice> {
    if condition then [n] else []
  }

  /** CurrentInputDevice of the InputStack revision (InputTools/InputStack.cs:405-445). */
  function Step<P(==)>(t: Tracker<P>, s: Sample<P>): (u: Update<P>) {
    if t.lastTickUpdated == s.ticks then Update(t.lastDevice, t, [])
    else
      var d := NextDevice(t, s);
      var moved := t.lastMousePos != s.mousePos;
      var wheel := t.lastScroll != s.scroll || t.lastHorizontalScroll != s.horizontalScroll;
      Update(d, Tracker(s.ticks, d, s.mousePos, s.scroll, s.horizontalScroll, moved, wheel), Notices(t, s, d, moved, wheel))
  }

  /** Step on a fresh tick, spelled out field by field. */
  lemma FreshStep<P>(t: Tracker<P>, s: Sample<P>)
    requires t.lastTickUpdated != s.ticks
    ensures
      var d := NextDevice(t, s);
      var moved := t.lastMousePos != s.mousePos;
      var wheel := t.lastScroll != s.scroll || t.lastHorizontalScroll != s.horizontalScroll;
      && Step(t, s).device == d
      && Step(t, s).next == Tracker(s.ticks, d, s.mousePos, s.scroll, s.horizontalScroll, moved, wheel)
      && Step(t, s).notices == Notices(t, s, d, moved, wheel)
  {
  }

  /** CurrentInputDevice of the older API revision (InputTools/InputToolsAPI.cs:79-114):
      it keeps no wheel flag and raises only the device-changed event. */
  function ApiStep<P(==)>(t: Tracker<P>, s: Sample<P>): (u: Update<P>) {
    if t.lastTickUpdated == s.ticks then Update(t.lastDevice, t, [])
    else
      var d := NextDevice(t, s);
      var moved := t.lastMousePos != s.mousePos;
      Update(d, Tracker(s.ticks, d, s.mousePos, s.scroll, s.horizontalScroll, moved, t.wheelMovedLastTick),
             if t.lastDevice != d then [DeviceChanged(d)] else [])
  }

  /** A second call within the same tick answers the cached device, raises nothing and
      changes nothing, whatever the game now reports. */
  lemma SameTickIsCached<P>(t: Tracker<P>, s: Sample<P>, s': Sample<P>)
    requires s'.ticks == s.ticks
    ensures Step(Step(t, s).next, s') == Update(Step(t, s).device, Step(t, s).next, [])
  {
  }

  /** Over two fresh ticks in a row, the second tick's moved flags compare its sample
      with the first tick's sample, whatever the tracker held before; and a second tick
      that shows no activity keeps the device the first one chose. */
  lemma ConsecutiveStepsCompareSamples<P>(t: Tracker<P>, s1: Sample<P>, s2: Sample<P>)
    requires t.lastTickUpdated != s1.ticks && s1.ticks != s2.ticks
    ensures var u1 := Step(t, s1); var u2 := Step(u1.next, s2);
      && (u2.next.mouseMovedLastTick <==> s1.mousePos != s2.mousePos)
      && (u2.next.wheelMovedLastTick <==> s1.scroll != s2.scroll || s1.horizontalScroll != s2.horizontalScroll)
      && ((forall d :: !Active(u1.next, s2, d)) ==> u2.device == u1.device && u2.notices == RaisedIf(s1.mousePos != s2.mousePos, CursorMoved(u1.device)) + RaisedIf(s1.scroll != s2.scroll || s1.horizontalScroll != s2.horizontalScroll, WheelMoved(s2.horizontalScroll, s2.scroll)))
  {
    FreshStep(t, s1);
    FreshStep(Step(t, s1).next, s2);
    NextDeviceIsHighestActive(Step(t, s1).next, s2);
  }

  /** The device-changed event is raised exactly on a transition, at most once, and always
      first; the answer is always the stored device. */
  lemma DeviceChangedIffTransition<P>(t: Tracker<P>, s: Sample<P>)
    ensures var u := Step(t, s);
      && u.device == u.next.lastDevice
      && ((exists i :: 0 <= i < |u.notices| && u.notices[i].DeviceChanged?) <==> u.device != t.lastDevice)
      && (forall i :: 0 < i < |u.notices| ==> !u.notices[i].DeviceChanged?)
      && (u.device != t.lastDevice ==> u.notices[0] == DeviceChanged(u.device))
  {
    var u := Step(t, s);
    if t.lastTickUpdated != s.ticks {
      var moved := t.lastMousePos != s.mousePos;
      var wheel := t.lastScroll != s.scroll || t.lastHorizontalScroll != s.horizontalScroll;
      var tail := (if moved then [CursorMoved(u.device)] else []) + (if wheel then [WheelMoved(s.horizontalScroll, s.scroll)] else []);
      assert forall i :: 0 <= i < |tail| ==> !tail[i].DeviceChanged?;
      assert u.notices == (if t.lastDevice != u.device then [DeviceChanged(u.device)] else []) + tail;
      if u.device != t.lastDevice {
        assert u.notices[0].DeviceChanged?;
      }
    }
  }

  /** The two revisions agree on the answer and on every stored field except the wheel flag,
      which only the InputStack revision keeps; the older one raises only the device event. */
  lemma RevisionsAgree<P>(t: Tracker<P>, s: Sample<P>)
    ensures ApiStep(t, s).device == Step(t, s).device
    ensures ApiStep(t, s).next == Step(t, s).next.(wheelMovedLastTick := ApiStep(t, s).next.wheelMovedLastTick)
    ensures ApiStep(t, s).next.wheelMovedLastTick == t.wheelMovedLastTick
    ensures forall n :: n in ApiStep(t, s).notices <==> n in Step(t, s).notices && n.DeviceChanged?
  {
  }

  /** The shared device-tracking fields of the InputToolsAPI object. */
  class DeviceTracker<P(==)> {
    var lastTickUpdated: int
    var lastInputDeviceUsed: InputDevice
    var lastMousePos: P
    var lastScrollWheelPos: int
    var lastHorizontalScrollWheelPos: int
    var mouseMovedLastTick: bool
    var mouseWheelMovedLastTick: bool

    function View(): Tracker<P>
      reads this
    {
      Tracker(lastTickUpdated, lastInputDeviceUsed, lastMousePos, lastScrollWheelPos,
              lastHorizontalScrollWheelPos, mouseMovedLastTick, mouseWheelMovedLastTick)
    }

    /** The field defaults of a new object (InputTools/InputToolsAPI.cs:29-34): no device,
        tick 0, cursor at the origin, wheels at 0, nothing moved. */
    constructor(origin: P)
      ensures View() == Tracker(0, NoDevice, origin, 0, 0, false, false)
    {
      lastTickUpdated := 0;
      lastInputDeviceUsed := NoDevice;
      lastMousePos := origin;
      lastScrollWheelPos := 0;
      lastHorizontalScrollWheelPos := 0;
      mouseMovedLastTick := false;
      mouseWheelMovedLastTick := false;
    }

    /** The device guess for a fresh tick: any gamepad activity, else any key down, else
        any mouse activity, else the previous device (InputTools/InputStack.cs:411-425). */
    method SampleDevice(s: Sample<P>) returns (d: InputDevice)
      ensures d == NextDevice(View(), s)
    {
      d := lastInputDeviceUsed;
      if s.gamePadPressed || s.gamePadHeld || s.thumbstickInMotion {
        d := Controller;
      } else if s.pressedKeyCount > 0 {
        d := Keyboard;
      } else if s.leftButton || s.middleButton || s.rightButton || s.xButton1 || s.xButton2
        || (s.mousePos != lastMousePos && s.lastCursorMotionWasMouse)
        || s.scroll != lastScrollWheelPos
        || s.horizontalScroll != lastHorizontalScrollWheelPos
      {
        d := Mouse;
      }
    }

    /** CurrentInputDevice of the InputStack revision, field by field
        (InputTools/InputStack.cs:405-445). */
    method CurrentInputDevice(s: Sample<P>) returns (d: InputDevice, notices: seq<Notice>)
      modifies this
      ensures Step(old(View()), s) == Update(d, View(), notices)
    {
      if lastTickUpdated == s.ticks {
        return lastInputDeviceUsed, [];
      }
      FreshStep(View(), s);
      var newInputDevice := SampleDevice(s);
      var moved := lastMousePos != s.mousePos;
      var wheelMoved := lastScrollWheelPos != s.scroll || lastHorizontalScrollWheelPos != s.horizontalScroll;
      // Every comparison with the stored values is made before they are overwritten, so the
      // order of the stores below does not matter; both branches of the source's change test
      // store the new device, and only the event depends on the change.
      notices := RaisedIf(lastInputDeviceUsed != newInputDevice, DeviceChanged(newInputDevice))
        + RaisedIf(moved, CursorMoved(newInputDevice))
        + RaisedIf(wheelMoved, WheelMoved(s.horizontalScroll, s.scroll));
      lastTickUpdated := s.ticks;
      mouseMovedLastTick := moved;
      mouseWheelMovedLastTick := wheelMoved;
      lastMousePos := s.mousePos;
      lastScrollWheelPos := s.scroll;
      lastHorizontalScrollWheelPos := s.horizontalScroll;
      lastInputDeviceUsed := newInputDevice;
      d := newInputDevice;
    }

    /** CurrentInputDevice of the older API revision (InputTools/InputToolsAPI.cs:79-114). */
    method ApiCurrentInputDevice(s: Sample<P>) returns (d: InputDevice, notices: seq<Notice>)
      modifies this
      ensures ApiStep(old(View()), s) == Update(d, View(), notices)
    {
      if lastTickUpdated == s.ticks {
        return lastInputDeviceUsed, [];
      }
      var newInputDevice := SampleDevice(s);
      mouseMovedLastTick := lastMousePos != s.mousePos;
      lastMousePos := s.mousePos;
      lastScrollWheelPos := s.scroll;
      lastHorizontalScrollWheelPos := s.horizontalScroll;
      lastTickUpdated := s.ticks;
      notices := if lastInputDeviceUsed != newInputDevice then [DeviceChanged(newInputDevice)] else [];
      lastInputDeviceUsed := newInputDevice;
      d := lastInputDeviceUsed;
    }

    /** IsCursorMoved (InputTools/InputStack.cs:498-511): refresh the device guess first,
        then answer from the refreshed cursor flag. Whether the asking stack is reachable
        and the button states are inputs. */
    method IsCursorMoved(s: Sample<P>, reachable: bool, states: ButtonStates, mouse: bool, controller: bool)
      returns (r: InputDevice, notices: seq<Notice>)
      modifies this
      ensures View() == Step(old(View()), s).next && notices == Step(old(View()), s).notices
      ensures r == Queries.CursorMoved(reachable, states, mouseMovedLastTick, mouse, controller)
      ensures r != NoDevice ==>
        && reachable
        && if old(lastTickUpdated) == s.ticks then old(mouseMovedLastTick) else old(lastMousePos) != s.mousePos
    {
      var _, n := CurrentInputDevice(s);
      notices := n;
      r := Queries.CursorMoved(reachable, states, mouseMovedLastTick, mouse, controller);
    }
  }
}
