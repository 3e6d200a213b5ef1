/** The mod entry of the older revision (InputTools/ModEntry.cs): the list of buttons being
    held, the per-tick choice of the active tile, and the small API object that reads them.

    The world-ready guard, the player's positions, the cursor's screen pixels and its two
    tiles arrive as parameters. Screen positions have type P and tiles type T; both are only
    compared for equality. */
module Mod {
  import opened InputTypes
  import opened Sequences
  import Roles

  /** The device codes of this revision's enum (InputTools/ModEntry.cs:36-41). */
  const MouseCode := 0
  const KeyboardCode := 1
  const ControllerCode := 2

  /** GetInputDevice of this revision (InputTools/ModEntry.cs:43-50), as the enum's number. */
  function GetInputDevice(b: Button): (code: int)
    ensures code in {MouseCode, KeyboardCode, ControllerCode}
  {
    if IsControllerButton(b) then ControllerCode
    else if IsKeyboardButton(b) then KeyboardCode
    else MouseCode
  }

  /** The number codes agree with the device the newer API reports for the same button. */
  lemma GetInputDeviceAgrees(b: Button)
    ensures GetInputDevice(b) == ControllerCode <==> Roles.GetInputDevice(b) == Controller
    ensures GetInputDevice(b) == KeyboardCode <==> Roles.GetInputDevice(b) == Keyboard
    ensures GetInputDevice(b) == MouseCode <==> Roles.GetInputDevice(b) == Mouse
  {
  }

  /** IsKeyboardMoveButtonPressing (InputTools/ModEntry.cs:52-58). */
  predicate KeyboardMovePressing(pressing: seq<Button>) {
    W in pressing || D in pressing || S in pressing || A in pressing
  }

  /** IsControllerMoveButtonPressing (InputTools/ModEntry.cs:60-66). */
  predicate ControllerMovePressing(pressing: seq<Button>) {
    LeftThumbstickUp in pressing || LeftThumbstickRight in pressing
    || LeftThumbstickDown in pressing || LeftThumbstickLeft in pressing
  }

  /** IsControllerCursorButtonPressing (InputTools/ModEntry.cs:68-74). */
  predicate ControllerCursorPressing(pressing: seq<Button>) {
    RightThumbstickUp in pressing || RightThumbstickRight in pressing
    || RightThumbstickDown in pressing || RightThumbstickLeft in pressing
  }

  /** The keyboard move group is exactly the buttons the newer API files under the WASD
      move source, in some direction. */
  lemma KeyboardGroupIsWasd(pressing: seq<Button>)
    ensures KeyboardMovePressing(pressing) <==>
      exists b, dir :: b in pressing && Roles.MoveSourceOf(dir, b) == KeyboardWASD
  {
    if KeyboardMovePressing(pressing) {
      if W in pressing {
        assert Roles.MoveSourceOf(MoveUp, W) == KeyboardWASD;
      } else if D in pressing {
        assert Roles.MoveSourceOf(MoveRight, D) == KeyboardWASD;
      } else if S in pressing {
        assert Roles.MoveSourceOf(MoveDown, S) == KeyboardWASD;
      } else {
        assert Roles.MoveSourceOf(MoveLeft, A) == KeyboardWASD;
      }
    }
    if exists b, dir :: b in pressing && Roles.MoveSourceOf(dir, b) == KeyboardWASD {
      var b, dir :| b in pressing && Roles.MoveSourceOf(dir, b) == KeyboardWASD;
      Roles.MoveClassifierMatchesTable(dir, b, KeyboardWASD);
    }
  }

  /** The controller move group is exactly the buttons the newer API files under the
      left-thumbstick move source, in some direction. */
  lemma ControllerGroupIsLeftStick(pressing: seq<Button>)
    ensures ControllerMovePressing(pressing) <==>
      exists b, dir :: b in pressing && Roles.MoveSourceOf(dir, b) == ControllerLeftThumbstick
  {
    if ControllerMovePressing(pressing) {
      if LeftThumbstickUp in pressing {
        assert Roles.MoveSourceOf(MoveUp, LeftThumbstickUp) == ControllerLeftThumbstick;
      } else if LeftThumbstickRight in pressing {
        assert Roles.MoveSourceOf(MoveRight, LeftThumbstickRight) == ControllerLeftThumbstick;
      } else if LeftThumbstickDown in pressing {
        assert Roles.MoveSourceOf(MoveDown, LeftThumbstickDown) == ControllerLeftThumbstick;
      } else {
        assert Roles.MoveSourceOf(MoveLeft, LeftThumbstickLeft) == ControllerLeftThumbstick;
      }
    }
    if exists b, dir :: b in pressing && Roles.MoveSourceOf(dir, b) == ControllerLeftThumbstick {
      var b, dir :| b in pressing && Roles.MoveSourceOf(dir, b) == ControllerLeftThumbstick;
      Roles.MoveClassifierMatchesTable(dir, b, ControllerLeftThumbstick);
    }
  }

  /** The cursor group holds controller buttons that are no move button of any source. */
  lemma CursorGroupMovesNothing(pressing: seq<Button>)
    ensures ControllerCursorPressing(pressing) ==>
      exists b :: b in pressing && Roles.GetInputDevice(b) == Controller && forall dir :: Roles.MoveSourceOf(dir, b) == NoSource
  {
    if ControllerCursorPressing(pressing) {
      var b :| b in pressing && b in [RightThumbstickUp, RightThumbstickRight, RightThumbstickDown, RightThumbstickLeft];
      forall dir ensures Roles.MoveSourceOf(dir, b) == NoSource {
        Roles.FourMoveButtonsPerDirection(dir, b);
      }
    }
  }

  /** The press handler's list update (InputTools/ModEntry.cs:138-139). */
  function PressUpdate(pressing: seq<Button>, b: Button): seq<Button> {
    if b in pressing then pressing else pressing + [b]
  }

  /** The release handler's list update (InputTools/ModEntry.cs:149-150). */
  function ReleaseUpdate(pressing: seq<Button>, b: Button): seq<Button> {
    if b in pressing then RemoveFirst(pressing, b) else pressing
  }

  /** A press keeps the list free of repeats, keeps every button already held in its
      place, and leaves the pressed button held. */
  lemma PressKeepsDistinct(pressing: seq<Button>, b: Button)
    requires Distinct(pressing)
    ensures Distinct(PressUpdate(pressing, b))
    ensures pressing <= PressUpdate(pressing, b)
    ensures forall x :: x in PressUpdate(pressing, b) <==> x in pressing || x == b
  {
    if b !in pressing {
      AppendFresh(pressing, b);
    }
  }

  /** A release keeps the list free of repeats, drops the released button and keeps the
      others in their order; releasing a button not held changes nothing. */
  lemma ReleaseKeepsDistinct(pressing: seq<Button>, b: Button)
    requires Distinct(pressing)
    ensures Distinct(ReleaseUpdate(pressing, b))
    ensures b !in ReleaseUpdate(pressing, b)
    ensures ReleaseUpdate(pressing, b) == Without(pressing, b)
    ensures b !in pressing ==> ReleaseUpdate(pressing, b) == pressing
  {
    if b in pressing {
      RemoveFirstOfDistinct(pressing, b);
    } else {
      WithoutAbsent(pressing, b);
    }
  }

  /** The fields the tile rule reads and writes. */
  datatype TileState<P, T> = TileState(
    lastCursorScreenPixels: P,
    lastTileHighlightPos: T,
    lastActiveTileFromCursor: bool,
    farmerMovedLastTick: bool,
    cursorMovedLastTick: bool,
    activeTileMovedLastTick: bool)

  /** What the game reports on one tick. */
  datatype TickInput<P, T> = TickInput(
    playerLastPosition: P,
    playerPosition: P,
    cursorScreenPixels: P,
    grabTile: T,
    cursorTile: T)

  /** The tile rule of one ready tick (InputTools/ModEntry.cs:158-181), with whether it sets
      the game's mouse-fade timer to 0. */
  datatype TickResult<P, T> = TickResult(next: TileState<P, T>, resetMouseFade: bool)

  function TileTick<P(==), T(==)>(st: TileState<P, T>, pressing: seq<Button>, input: TickInput<P, T>): TickResult<P, T> {
    var farmerMoved := input.playerLastPosition != input.playerPosition;
    var cursorMoved := st.lastCursorScreenPixels != input.cursorScreenPixels;
    var s := st.(farmerMovedLastTick := farmerMoved, cursorMovedLastTick := cursorMoved,
                 lastCursorScreenPixels := input.cursorScreenPixels, activeTileMovedLastTick := false);
    if farmerMoved && ControllerMovePressing(pressing) then
      if st.lastTileHighlightPos == input.grabTile then TickResult(s, false)
      else TickResult(s.(activeTileMovedLastTick := true, lastTileHighlightPos := input.grabTile,
                         lastActiveTileFromCursor := false), true)
    else if cursorMoved || KeyboardMovePressing(pressing) then
      if st.lastTileHighlightPos == input.cursorTile then TickResult(s.(activeTileMovedLastTick := false), false)
      else TickResult(s.(activeTileMovedLastTick := true, lastTileHighlightPos := input.cursorTile,
                         lastActiveTileFromCursor := true), false)
    else TickResult(s, false)
  }

  /** The tile-moved flag is set exactly when the active tile changed, and an unchanged tile
      keeps its source flag; the cursor and motion flags always follow the sample. */
  lemma TileMovedIffChanged<P, T>(st: TileState<P, T>, pressing: seq<Button>, input: TickInput<P, T>)
    ensures var n := TileTick(st, pressing, input).next;
      && (n.activeTileMovedLastTick <==> n.lastTileHighlightPos != st.lastTileHighlightPos)
      && (n.lastTileHighlightPos == st.lastTileHighlightPos ==> n.lastActiveTileFromCursor == st.lastActiveTileFromCursor)
      && n.lastCursorScreenPixels == input.cursorScreenPixels
      && (n.farmerMovedLastTick <==> input.playerLastPosition != input.playerPosition)
      && (n.cursorMovedLastTick <==> st.lastCursorScreenPixels != input.cursorScreenPixels)
  {
  }

  /** Where a new active tile comes from: the grab tile, with the cursor flag off, when the
      farmer moved while a controller move button is held, and then never the cursor tile;
      otherwise the cursor tile, with the flag on, when the cursor moved or a keyboard move
      button is held; with neither, nothing changes. */
  lemma TileSource<P, T>(st: TileState<P, T>, pressing: seq<Button>, input: TickInput<P, T>)
    ensures var r := TileTick(st, pressing, input); var n := r.next;
      var controllerRule := input.playerLastPosition != input.playerPosition && ControllerMovePressing(pressing);
      var cursorRule := st.lastCursorScreenPixels != input.cursorScreenPixels || KeyboardMovePressing(pressing);
      && (controllerRule ==> n.lastTileHighlightPos == (if n.activeTileMovedLastTick then input.grabTile else st.lastTileHighlightPos))
      && (controllerRule && n.activeTileMovedLastTick ==> !n.lastActiveTileFromCursor && r.resetMouseFade)
      && (!controllerRule && cursorRule ==> n.lastTileHighlightPos == (if n.activeTileMovedLastTick then input.cursorTile else st.lastTileHighlightPos))
      && (!controllerRule && cursorRule && n.activeTileMovedLastTick ==> n.lastActiveTileFromCursor)
      && (!controllerRule && !cursorRule ==> !n.activeTileMovedLastTick)
      && (r.resetMouseFade ==> controllerRule && n.activeTileMovedLastTick)
  {
  }

  /** The ModEntry object together with its API's device field. */
  class ModEntry<P(==), T(==)> {
    var buttonsPressing: seq<Button>
    var lastInputDevice: int
    var lastCursorScreenPixels: P
    var lastTileHighlightPos: T
    var lastActiveTileFromCursor: bool
    var farmerMovedLastTick: bool
    var cursorMovedLastTick: bool
    var activeTileMovedLastTick: bool

    ghost predicate Valid()
      reads this
    {
      Distinct(buttonsPressing)
    }

    function Tiles(): TileState<P, T>
      reads this
    {
      TileState(lastCursorScreenPixels, lastTileHighlightPos, lastActiveTileFromCursor,
                farmerMovedLastTick, cursorMovedLastTick, activeTileMovedLastTick)
    }

    /** The field defaults: no button held, the enum's first value (Mouse), the given
        initial position and tile, every flag off. */
    constructor(origin: P, tile: T)
      ensures Valid() && buttonsPressing == [] && lastInputDevice == MouseCode
      ensures Tiles() == TileState(origin, tile, false, false, false, false)
    {
      buttonsPressing := [];
      lastInputDevice := MouseCode;
      lastCursorScreenPixels := origin;
      lastTileHighlightPos := tile;
      lastActiveTileFromCursor := false;
      farmerMovedLastTick := false;
      cursorMovedLastTick := false;
      activeTileMovedLastTick := false;
    }

    /** OnButtonPressed (InputTools/ModEntry.cs:133-141). */
    method OnButtonPressed(worldReady: bool, b: Button)
      requires Valid()
      modifies this
      ensures Valid()
      ensures !worldReady ==> unchanged(this)
      ensures worldReady ==> buttonsPressing == PressUpdate(old(buttonsPressing), b) && lastInputDevice == GetInputDevice(b)
      ensures worldReady ==> Tiles() == old(Tiles())
    {
      if !worldReady {
        return;
      }
      PressKeepsDistinct(buttonsPressing, b);
      if b !in buttonsPressing {
        buttonsPressing := buttonsPressing + [b];
      }
      lastInputDevice := GetInputDevice(b);
    }

    /** OnButtonReleased (InputTools/ModEntry.cs:143-151). */
    method OnButtonReleased(worldReady: bool, b: Button)
      requires Valid()
      modifies this
      ensures Valid()
      ensures !worldReady ==> unchanged(this)
      ensures worldReady ==> buttonsPressing == ReleaseUpdate(old(buttonsPressing), b)
      ensures worldReady ==> lastInputDevice == old(lastInputDevice) && Tiles() == old(Tiles())
    {
      if !worldReady {
        return;
      }
      ReleaseKeepsDistinct(buttonsPressing, b);
      if b in buttonsPressing {
        buttonsPressing := RemoveFirst(buttonsPressing, b);
      }
    }

    /** OnUpdateTicked (InputTools/ModEntry.cs:153-182); the answer says whether the game's
        mouse-fade timer was set to 0. */
    method OnUpdateTicked(worldReady: bool, input: TickInput<P, T>) returns (resetMouseFade: bool)
      modifies this
      ensures !worldReady ==> unchanged(this) && !resetMouseFade
      ensures worldReady ==> TileTick(old(Tiles()), buttonsPressing, input) == TickResult(Tiles(), resetMouseFade)
      ensures buttonsPressing == old(buttonsPressing) && lastInputDevice == old(lastInputDevice)
    {
      resetMouseFade := false;
      if !worldReady {
        return;
      }
      farmerMovedLastTick := input.playerLastPosition != input.playerPosition;
      cursorMovedLastTick := lastCursorScreenPixels != input.cursorScreenPixels;
      lastCursorScreenPixels := input.cursorScreenPixels;
      activeTileMovedLastTick := false;
      if farmerMovedLastTick && ControllerMovePressing(buttonsPressing) {
        activeTileMovedLastTick := lastTileHighlightPos != input.grabTile;
        if !activeTileMovedLastTick {
          return;
        }
        lastTileHighlightPos := input.grabTile;
        lastActiveTileFromCursor := false;
        resetMouseFade := true;
      } else if cursorMovedLastTick || KeyboardMovePressing(buttonsPressing) {
        activeTileMovedLastTick := lastTileHighlightPos != input.cursorTile;
        if !activeTileMovedLastTick {
          return;
        }
        lastTileHighlightPos := input.cursorTile;
        lastActiveTileFromCursor := true;
      }
    }
  }
}
