/** Wheel-speed limits and drive-mode arbitration.

    `setSpeed` saturates each wheel value to [-127, 127]. The joystick handler
    keeps a tank/mixed mode flag, flips it on every message whose first button
    is pressed, picks the speed pair for the current mode and raises each
    speed to at least -99 (there is no upper clamp at that point). The
    skid-steer handler saturates velocity and yaw rate to their limits. */
module Drive {

  // ---------------------------------------------------------------------
  // setSpeed saturation
  // ---------------------------------------------------------------------

  const SpeedLimit := 127

  /** The wheel value `setSpeed` sends for a requested `x`. */
  function ClampSpeed(x: int): (r: int)
    ensures -SpeedLimit <= r <= SpeedLimit
    ensures -SpeedLimit <= x <= SpeedLimit ==> r == x
    ensures x > SpeedLimit ==> r == SpeedLimit
    ensures x < -SpeedLimit ==> r == -SpeedLimit
  {
    if x > SpeedLimit then SpeedLimit else if x < -SpeedLimit then -SpeedLimit else x
  }

  /** Saturating twice is saturating once, and saturation keeps order. */
  lemma ClampSpeedIdempotentMonotone(x: int, y: int)
    ensures ClampSpeed(ClampSpeed(x)) == ClampSpeed(x)
    ensures x <= y ==> ClampSpeed(x) <= ClampSpeed(y)
  {
  }

  // ---------------------------------------------------------------------
  // Joystick arbitration
  // ---------------------------------------------------------------------

  const ReverseFloor := -99

  /** One joystick message, reduced to what the handler uses: the first button,
      and the integer speed pairs it computes from the axes for each mode. The
      axis arithmetic and its conversion to `int` are done before the model. */
  datatype JoyMsg = JoyMsg(button0: bool, tankLeft: int, tankRight: int, mixedLeft: int, mixedRight: int)

  /** The mode after one message: a pressed first button flips it. */
  function ToggleMode(dualDrive: bool, msg: JoyMsg): bool
  {
    if msg.button0 then !dualDrive else dualDrive
  }

  /** The mode after a run of messages, handled in order. */
  function ModeAfter(dualDrive: bool, msgs: seq<JoyMsg>): bool
    decreases |msgs|
  {
    if msgs == [] then dualDrive else ModeAfter(ToggleMode(dualDrive, msgs[0]), msgs[1..])
  }

  /** How many of the messages have the first button pressed. */
  function Presses(msgs: seq<JoyMsg>): nat
  {
    if msgs == [] then 0 else (if msgs[0].button0 then 1 else 0) + Presses(msgs[1..])
  }

  /** The speed raised to the reverse floor, as the handler does to both wheels. */
  function FloorSpeed(x: int): (r: int)
    ensures r >= ReverseFloor
    ensures x >= ReverseFloor ==> r == x
    ensures x < ReverseFloor ==> r == ReverseFloor
  {
    if x < ReverseFloor then ReverseFloor else x
  }

  /** The pair the handler passes to `setSpeed` once the mode is `dualDrive`. */
  function DriveSpeeds(dualDrive: bool, msg: JoyMsg): (speeds: (int, int))
    ensures speeds.0 >= ReverseFloor && speeds.1 >= ReverseFloor
    ensures dualDrive ==> speeds == (FloorSpeed(msg.tankLeft), FloorSpeed(msg.tankRight))
    ensures !dualDrive ==> speeds == (FloorSpeed(msg.mixedLeft), FloorSpeed(msg.mixedRight))
  {
    if dualDrive then (FloorSpeed(msg.tankLeft), FloorSpeed(msg.tankRight))
    else (FloorSpeed(msg.mixedLeft), FloorSpeed(msg.mixedRight))
  }

  /** The mode after any run of messages is the starting mode flipped once
      per pressed button: it is back where it started exactly when the number
      of presses is even. */
  lemma {:induction false} ModeAfterParity(dualDrive: bool, msgs: seq<JoyMsg>)
    ensures ModeAfter(dualDrive, msgs) == (if Presses(msgs) % 2 == 0 then dualDrive else !dualDrive)
    decreases |msgs|
  {
    if msgs != [] {
      ModeAfterParity(ToggleMode(dualDrive, msgs[0]), msgs[1..]);
    }
  }

  /** Two messages with the button pressed restore the mode. */
  lemma TwoPressesRestore(dualDrive: bool, m1: JoyMsg, m2: JoyMsg)
    requires m1.button0 && m2.button0
    ensures ModeAfter(dualDrive, [m1, m2]) == dualDrive
  {
    ModeAfterParity(dualDrive, [m1, m2]);
    assert [m1, m2][1..] == [m2] && [m2][1..] == [];
    assert Presses([m2]) == 1;
  }

  /** What the joystick handler finally sends lies in [-99, 127] on both wheels. */
  lemma SentSpeedsInRange(dualDrive: bool, msg: JoyMsg)
    ensures var (l, r) := DriveSpeeds(dualDrive, msg);
            ReverseFloor <= ClampSpeed(l) <= SpeedLimit && ReverseFloor <= ClampSpeed(r) <= SpeedLimit
  {
  }

  // ---------------------------------------------------------------------
  // Skid-steer saturation
  // ---------------------------------------------------------------------

  datatype SkidCmd = SkidCmd(velocity: real, yawRate: real)

  /** `x` saturated to [-limit, limit], tested upper bound first. */
  function Saturate(x: real, limit: real): (r: real)
    ensures limit >= 0.0 ==> -limit <= r <= limit
    ensures -limit <= x <= limit ==> r == x
    ensures x > limit ==> r == limit
    ensures x <= limit && x < -limit ==> r == -limit
  {
    if x > limit then limit else if x < -limit then -limit else x
  }

  /** The velocity and yaw rate the skid-steer handler saturates. */
  function SaturateSkid(cmd: SkidCmd, maxSpeed: real, maxYawRate: real): (s: SkidCmd)
    ensures maxSpeed >= 0.0 ==> -maxSpeed <= s.velocity <= maxSpeed
    ensures maxYawRate >= 0.0 ==> -maxYawRate <= s.yawRate <= maxYawRate
    ensures -maxSpeed <= cmd.velocity <= maxSpeed ==> s.velocity == cmd.velocity
    ensures -maxYawRate <= cmd.yawRate <= maxYawRate ==> s.yawRate == cmd.yawRate
    ensures cmd.velocity > maxSpeed ==> s.velocity == maxSpeed
    ensures cmd.velocity <= maxSpeed && cmd.velocity < -maxSpeed ==> s.velocity == -maxSpeed
    ensures cmd.yawRate > maxYawRate ==> s.yawRate == maxYawRate
    ensures cmd.yawRate <= maxYawRate && cmd.yawRate < -maxYawRate ==> s.yawRate == -maxYawRate
  {
    SkidCmd(Saturate(cmd.velocity, maxSpeed), Saturate(cmd.yawRate, maxYawRate))
  }

  /** Saturating an already saturated command changes nothing. */
  lemma SaturateIdempotent(x: real, limit: real)
    requires limit >= 0.0
    ensures Saturate(Saturate(x, limit), limit) == Saturate(x, limit)
  {
  }
}
