/**
 * The keyboard camera of src/camera.rs: a controller whose six key flags
 * follow press and release events, and a camera whose distance and angle
 * move by `speed * dt` and `angular_speed * dt` while those keys are held.
 * Only the scalar state is modelled; angles are in degrees and `f32`
 * becomes `real`.
 */
module OrbitCamera {
  import opened Wrappers

  /** The winit key names the controller reacts to, and every other key. */
  datatype Key = Space | Shift | ArrowUp | ArrowLeft | ArrowDown | ArrowRight | OtherKey

  datatype ElementState = Pressed | Released

  /** A window event: a keyboard event carries its logical key and state; the controller
      does not look inside any other event. */
  datatype WindowEvent = KeyboardInput(key: Key, state: ElementState) | OtherEvent

  /** The six controls, one per flag of the controller. */
  datatype Control = Up | Down | Forward | Backward | Left | Right

  /** The six `is_*_pressed` flags. */
  datatype KeyFlags = KeyFlags(up: bool, down: bool, forward: bool, backward: bool, left: bool, right: bool)

  const NoKeysHeld: KeyFlags := KeyFlags(false, false, false, false, false, false)

  /** The control a key drives: Space and Shift are up and down, the arrows move the camera. */
  function ControlOf(k: Key): (c: Option<Control>)
    ensures c.None? <==> k == OtherKey
  {
    match k
    case Space => Some(Up)
    case Shift => Some(Down)
    case ArrowUp => Some(Forward)
    case ArrowLeft => Some(Left)
    case ArrowDown => Some(Backward)
    case ArrowRight => Some(Right)
    case OtherKey => None
  }

  /** No two keys drive the same control, and every control has a key. */
  lemma ControlOfOneToOne(k1: Key, k2: Key, c: Control)
    ensures ControlOf(k1).Some? && ControlOf(k1) == ControlOf(k2) ==> k1 == k2
    ensures exists k :: ControlOf(k) == Some(c)
  {
    match c
    case Up => assert ControlOf(Space) == Some(c);
    case Down => assert ControlOf(Shift) == Some(c);
    case Forward => assert ControlOf(ArrowUp) == Some(c);
    case Backward => assert ControlOf(ArrowDown) == Some(c);
    case Left => assert ControlOf(ArrowLeft) == Some(c);
    case Right => assert ControlOf(ArrowRight) == Some(c);
  }

  function Held(f: KeyFlags, c: Control): bool
  {
    match c
    case Up => f.up
    case Down => f.down
    case Forward => f.forward
    case Backward => f.backward
    case Left => f.left
    case Right => f.right
  }

  /** The flags with control `c` set to `b`. */
  function SetHeld(f: KeyFlags, c: Control, b: bool): (g: KeyFlags)
    ensures Held(g, c) == b
    ensures forall c' :: c' != c ==> Held(g, c') == Held(f, c')
  {
    match c
    case Up => f.(up := b)
    case Down => f.(down := b)
    case Forward => f.(forward := b)
    case Backward => f.(backward := b)
    case Left => f.(left := b)
    case Right => f.(right := b)
  }

  /** The effect of one event on the flags, and whether the event was handled. A keyboard
      event for one of the six keys sets exactly that key's flag to whether it is pressed, and
      is handled; every other event changes nothing and is not handled. */
  function ApplyEvent(f: KeyFlags, e: WindowEvent): (r: (KeyFlags, bool))
    ensures r.1 <==> e.KeyboardInput? && ControlOf(e.key).Some?
    ensures r.1 ==> Held(r.0, ControlOf(e.key).value) == (e.state == Pressed)
    ensures r.1 ==> forall c :: c != ControlOf(e.key).value ==> Held(r.0, c) == Held(f, c)
    ensures !r.1 ==> r.0 == f
  {
    match e
    case KeyboardInput(key, state) =>
      (match ControlOf(key)
       case Some(c) => (SetHeld(f, c, state == Pressed), true)
       case None => (f, false))
    case OtherEvent => (f, false)
  }

  /** No debouncing: of two events for the same key the second decides the flag, so pressing
      then releasing leaves the key up, and repeating an event changes nothing. */
  lemma LastEventWins(f: KeyFlags, k: Key, s1: ElementState, s2: ElementState)
    ensures ApplyEvent(ApplyEvent(f, KeyboardInput(k, s1)).0, KeyboardInput(k, s2))
         == ApplyEvent(f, KeyboardInput(k, s2))
    ensures ControlOf(k).Some? ==>
      !Held(ApplyEvent(ApplyEvent(f, KeyboardInput(k, Pressed)).0, KeyboardInput(k, Released)).0,
            ControlOf(k).value)
  {
    var g := ApplyEvent(f, KeyboardInput(k, s1)).0;
    var h1 := ApplyEvent(g, KeyboardInput(k, s2)).0;
    var h2 := ApplyEvent(f, KeyboardInput(k, s2)).0;
    forall c ensures Held(h1, c) == Held(h2, c) {
    }
    FlagsEqual(h1, h2);
  }

  lemma FlagsEqual(f: KeyFlags, g: KeyFlags)
    requires forall c :: Held(f, c) == Held(g, c)
    ensures f == g
  {
    assert Held(f, Up) == Held(g, Up) && Held(f, Down) == Held(g, Down);
    assert Held(f, Forward) == Held(g, Forward) && Held(f, Backward) == Held(g, Backward);
    assert Held(f, Left) == Held(g, Left) && Held(f, Right) == Held(g, Right);
  }

  // ---------------------------------------------------------------------------------------
  // Angles

  const FullTurn: real := 360.0

  /** Rounding toward zero, as `f32 as` casts and `%` do. */
  function Truncate(x: real): int
  {
    if x >= 0.0 then x.Floor else -((-x).Floor)
  }

  /** cgmath's `Deg::normalize`: the truncated remainder by a full turn, moved up by a turn when
      negative. The result is the representative of `a` in [0, 360). */
  function Normalize(a: real): (r: real)
    ensures 0.0 <= r < FullTurn
    ensures r == a - FullTurn * (a / FullTurn).Floor as real
    ensures 0.0 <= a < FullTurn ==> r == a
  {
    var rem := a - FullTurn * Truncate(a / FullTurn) as real;
    var r := if rem < 0.0 then rem + FullTurn else rem;
    TruncatedRemainder(a);
    r
  }

  /** How the truncated remainder relates to the floored one. */
  lemma TruncatedRemainder(a: real)
    ensures var rem := a - FullTurn * Truncate(a / FullTurn) as real;
            var floored := a - FullTurn * (a / FullTurn).Floor as real;
            && 0.0 <= floored < FullTurn
            && (rem < 0.0 ==> rem + FullTurn == floored)
            && (rem >= 0.0 ==> rem == floored)
  {
    var x := a / FullTurn;
    assert a == FullTurn * x;
    var f := x.Floor;
    assert f as real <= x < f as real + 1.0;
    if x < 0.0 {
      var m := (-x).Floor;
      assert m as real <= -x < m as real + 1.0;
      if -x == m as real {
        assert f == -m;
      } else {
        assert f == -m - 1;
      }
    }
  }

  /** Normalising twice is normalising once. */
  lemma NormalizeIdempotent(a: real)
    ensures Normalize(Normalize(a)) == Normalize(a)
  {
  }

  /** Angles a whole number of turns apart normalise to the same angle. */
  lemma NormalizeWholeTurns(a: real, k: int)
    ensures Normalize(a + FullTurn * k as real) == Normalize(a)
  {
    var b := a + FullTurn * k as real;
    assert b / FullTurn == a / FullTurn + k as real;
    assert (b / FullTurn).Floor == (a / FullTurn).Floor + k;
  }

  // ---------------------------------------------------------------------------------------
  // One frame of Camera::update

  /** The new distance after a frame in which the camera can travel `step` (`speed * dt`):
      the forward key moves in by `step`, stopping at 0; then the backward key moves out by
      `step`. */
  function StepDistance(distance: real, step: real, forward: bool, backward: bool): (d: real)
    ensures distance >= 0.0 && step >= 0.0 ==> d >= 0.0
    ensures forward && step >= 0.0 ==> d >= 0.0
    ensures !forward && !backward ==> d == distance
    ensures forward && !backward && step >= 0.0 && distance >= 0.0 ==> d <= distance
    ensures backward && !forward ==> d == distance + step
    ensures forward && backward && step >= 0.0 ==> d >= distance
  {
    var afterForward := if forward then Max(distance - step, 0.0) else distance;
    if backward then afterForward + step else afterForward
  }

  function Max(a: real, b: real): real { if a >= b then a else b }

  lemma MulNonnegativeReal(a: real, b: real)
    ensures a >= 0.0 && b >= 0.0 ==> a * b >= 0.0
  {
  }

  /** The new angle after a frame in which the camera can turn by `turn`
      (`angular_speed * dt`): the right key turns by `+turn`, then the left key by `-turn`,
      each followed by normalisation. The angle stays in [0, 360) and does not move when
      neither key is held; holding both turns it back to where it was. */
  function StepAngle(angle: real, turn: real, right: bool, left: bool): (a: real)
    ensures (right || left) ==> 0.0 <= a < FullTurn
    ensures 0.0 <= angle < FullTurn ==> 0.0 <= a < FullTurn
    ensures !right && !left ==> a == angle
    ensures right && left ==> a == Normalize(angle)
  {
    var afterRight := if right then Normalize(angle + turn) else angle;
    TurnThereAndBack(angle, turn);
    if left then Normalize(afterRight - turn) else afterRight
  }

  /** The distance half of `update`, key by key. */
  method Travel(distance: real, step: real, forward: bool, backward: bool) returns (d: real)
    ensures d == StepDistance(distance, step, forward, backward)
  {
    d := distance;
    if forward {
      d := Max(d - step, 0.0);
    }
    if backward {
      d := d + step;
    }
  }

  /** The angle half of `update`, key by key, normalising after each turn. */
  method Turn(angle: real, turn: real, right: bool, left: bool) returns (a: real)
    ensures a == StepAngle(angle, turn, right, left)
  {
    a := angle;
    if right {
      a := Normalize(a + turn);
    }
    if left {
      a := Normalize(a - turn);
    }
  }

  /** Turning by `turn` and back again lands on the normalised start. */
  lemma TurnThereAndBack(angle: real, turn: real)
    ensures Normalize(Normalize(angle + turn) - turn) == Normalize(angle)
  {
    var k := ((angle + turn) / FullTurn).Floor;
    assert Normalize(angle + turn) - turn == angle + FullTurn * (-k) as real;
    NormalizeWholeTurns(angle, -k);
  }

  // ---------------------------------------------------------------------------------------
  // The controller and the camera, updated in place

  /** `CameraController`: the speeds it was built with and the six key flags. */
  class CameraController {
    const speed: real
    const angularSpeed: real
    var isUpPressed: bool
    var isDownPressed: bool
    var isForwardPressed: bool
    var isBackwardPressed: bool
    var isLeftPressed: bool
    var isRightPressed: bool

    function Flags(): KeyFlags
      reads this
    {
      KeyFlags(isUpPressed, isDownPressed, isForwardPressed, isBackwardPressed, isLeftPressed, isRightPressed)
    }

    /** `CameraController::new`: the given speeds, no key held. */
    constructor (speed: real, angularSpeed: real)
      ensures this.speed == speed && this.angularSpeed == angularSpeed
      ensures Flags() == NoKeysHeld
    {
      this.speed := speed;
      this.angularSpeed := angularSpeed;
      isUpPressed, isDownPressed := false, false;
      isForwardPressed, isBackwardPressed := false, false;
      isLeftPressed, isRightPressed := false, false;
    }

    /** `process_events`: overwrite the flag of the key the event names, if it is one of the
        six, and report whether the event was handled. */
    method ProcessEvents(event: WindowEvent) returns (handled: bool)
      modifies this
      ensures (Flags(), handled) == ApplyEvent(old(Flags()), event)
    {
      match event {
        case KeyboardInput(key, state) =>
          var isPressed := state == Pressed;
          match key {
            case Space =>
              isUpPressed := isPressed;
              handled := true;
            case Shift =>
              isDownPressed := isPressed;
              handled := true;
            case ArrowUp =>
              isForwardPressed := isPressed;
              handled := true;
            case ArrowLeft =>
              isLeftPressed := isPressed;
              handled := true;
            case ArrowDown =>
              isBackwardPressed := isPressed;
              handled := true;
            case ArrowRight =>
              isRightPressed := isPressed;
              handled := true;
            case OtherKey =>
              handled := false;
          }
        case OtherEvent =>
          handled := false;
      }
    }
  }

  /** `Camera`: its scalar placement (angle and plane angle in degrees, distance from the
      target), the aspect ratio of the view, and its controller. */
  class Camera {
    var angle: real
    var distance: real
    var planeAngle: real
    var aspect: real
    const controller: CameraController

    /** The angle is normalised, the distance is not negative, and the camera moves away from
        the target when the backward key is held. */
    ghost predicate Valid()
      reads this
    {
      0.0 <= angle < FullTurn && distance >= 0.0 && controller.speed >= 0.0
    }

    /** `Camera::new`: a controller with speed 15 and angular speed 180 and no key held, angle
        0, distance 15, plane angle 30 and the window's aspect ratio. */
    constructor (width: real, height: real)
      requires height != 0.0
      ensures Valid() && fresh(controller)
      ensures angle == 0.0 && distance == 15.0 && planeAngle == 30.0 && aspect == width / height
      ensures controller.speed == 15.0 && controller.angularSpeed == 180.0
      ensures controller.Flags() == NoKeysHeld
    {
      controller := new CameraController(15.0, 180.0);
      angle := 0.0;
      distance := 15.0;
      aspect := width / height;
      planeAngle := 30.0;
    }

    /** `Camera::update` for a frame of `dt` seconds: distance and angle move as the held keys
        say; the Space and Shift flags, the plane angle and the aspect ratio play no part. */
    method Update(dt: real)
      requires Valid() && dt >= 0.0
      modifies this
      ensures Valid()
      ensures distance == StepDistance(old(distance), controller.speed * dt,
                                       controller.isForwardPressed, controller.isBackwardPressed)
      ensures angle == StepAngle(old(angle), controller.angularSpeed * dt,
                                 controller.isRightPressed, controller.isLeftPressed)
      ensures planeAngle == old(planeAngle) && aspect == old(aspect)
    {
      var step := controller.speed * dt;
      var turn := controller.angularSpeed * dt;
      MulNonnegativeReal(controller.speed, dt);
      distance := Travel(distance, step, controller.isForwardPressed, controller.isBackwardPressed);
      angle := Turn(angle, turn, controller.isRightPressed, controller.isLeftPressed);
    }

    /** `Camera::resize`: the aspect ratio follows the window; the placement is untouched. */
    method Resize(width: real, height: real)
      requires height != 0.0
      modifies this
      ensures aspect == width / height
      ensures angle == old(angle) && distance == old(distance) && planeAngle == old(planeAngle)
    {
      aspect := width / height;
    }
  }
}
