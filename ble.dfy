/** The command decoder of serbpible.py: the write handler of the light characteristic reads a
    (device, state) byte pair and routes it through a fixed table of actuator calls. */
module Ble {
  import opened Ctrl

  // Device identifiers (first byte).
  const DEV_ALL := 0
  const DEV_FRONT := 1
  const DEV_REAR := 2
  const DEV_TURN := 3
  const DEV_LOCK := 4

  // State identifiers (second byte); their meaning depends on the device.
  const STATE_OFF := 0
  const STATE_ON := 1
  const STATE_LOW := 2
  const STATE_BLINK := 3
  const STATE_LEFT := 4
  const STATE_RIGHT := 5

  type Byte = x: int | 0 <= x < 256

  /** What a command asks of the actuators. */
  datatype Command =
    | Hazard              // hazardLights
    | AllOff              // offAll
    | Front(mode: int)    // setFrontMode(mode)
    | RearRest(on: bool)  // onRear / offRear
    | RearBlink           // startBlinkRear
    | TurnOff             // doneLeftTurn; doneRightTurn
    | TurnLeft            // doneRightTurn; turnLeft
    | TurnRight           // doneLeftTurn; turnRight
    | Lock                // lock
    | Unlock              // unlock
    | Ignore              // any other pair

  /** The defined (device, state) pairs and the command each one stands for. */
  const Table: map<(int, int), Command> := map[
    (DEV_ALL, STATE_ON) := Hazard,
    (DEV_ALL, STATE_OFF) := AllOff,
    (DEV_FRONT, STATE_OFF) := Front(MODE_OFF),
    (DEV_FRONT, STATE_ON) := Front(MODE_HIGH),
    (DEV_FRONT, STATE_LOW) := Front(MODE_LOW),
    (DEV_FRONT, STATE_BLINK) := Front(MODE_BLINK),
    (DEV_REAR, STATE_OFF) := RearRest(false),
    (DEV_REAR, STATE_ON) := RearRest(true),
    (DEV_REAR, STATE_BLINK) := RearBlink,
    (DEV_TURN, STATE_OFF) := TurnOff,
    (DEV_TURN, STATE_LEFT) := TurnLeft,
    (DEV_TURN, STATE_RIGHT) := TurnRight,
    (DEV_LOCK, STATE_OFF) := Unlock,
    (DEV_LOCK, STATE_ON) := Lock
  ]

  /** The decision made by the nested tests of the write handler: a pair in the table gives its
      command, every other pair is ignored. */
  function Decode(device: int, state: int): (c: Command)
    ensures (device, state) in Table ==> c == Table[(device, state)]
    ensures (device, state) !in Table ==> c == Ignore
  {
    if device == DEV_ALL then
      if state == STATE_ON then Hazard
      else if state == STATE_OFF then AllOff
      else Ignore
    else if device == DEV_FRONT then
      if state == STATE_OFF then Front(MODE_OFF)
      else if state == STATE_ON then Front(MODE_HIGH)
      else if state == STATE_LOW then Front(MODE_LOW)
      else if state == STATE_BLINK then Front(MODE_BLINK)
      else Ignore
    else if device == DEV_REAR then
      if state == STATE_OFF then RearRest(false)
      else if state == STATE_ON then RearRest(true)
      else if state == STATE_BLINK then RearBlink
      else Ignore
    else if device == DEV_TURN then
      if state == STATE_OFF then TurnOff
      else if state == STATE_LEFT then TurnLeft
      else if state == STATE_RIGHT then TurnRight
      else Ignore
    else if device == DEV_LOCK then
      if state == STATE_OFF then Unlock
      else if state == STATE_ON then Lock
      else Ignore
    else
      Ignore
  }

  /** What carrying out `c` did to the actuators, between the old state and the current one. */
  twostate predicate Performed(s: Actuators, c: Command)
    reads s, s.rear, s.left, s.right
  {
    match c
    case Ignore =>
      unchanged(s, s.rear, s.left, s.right)
    case Hazard =>
      && s.frontMode == MODE_BLINK
      && (IsMode(old(s.frontMode)) ==>
            s.pulses == old(s.pulses) + Pulses(old(s.frontMode), MODE_BLINK))
      && Started(s.rear) && Started(s.left) && Started(s.right)
      && s.lockDuty == old(s.lockDuty)
    case AllOff =>
      && s.frontMode == MODE_OFF
      && (IsMode(old(s.frontMode)) ==>
            s.pulses == old(s.pulses) + Pulses(old(s.frontMode), MODE_OFF))
      && Stopped(s.rear, false) && Stopped(s.left, false) && Stopped(s.right, false)
      && s.lockDuty == old(s.lockDuty)
    case Front(m) =>
      && unchanged(s.rear, s.left, s.right)
      && s.lockDuty == old(s.lockDuty)
      && (IsMode(m) && IsMode(old(s.frontMode)) ==>
            s.frontMode == m && s.pulses == old(s.pulses) + Pulses(old(s.frontMode), m))
      && (!IsMode(m) ==> unchanged(s))
    case RearRest(on) =>
      Stopped(s.rear, on) && unchanged(s, s.left, s.right)
    case RearBlink =>
      Started(s.rear) && unchanged(s, s.left, s.right)
    case TurnOff =>
      Stopped(s.left, false) && Stopped(s.right, false) && unchanged(s, s.rear)
    case TurnLeft =>
      Stopped(s.right, false) && Started(s.left) && unchanged(s, s.rear)
    case TurnRight =>
      Stopped(s.left, false) && Started(s.right) && unchanged(s, s.rear)
    case Lock =>
      && s.lockDuty == LOCKED_DUTY
      && s.frontMode == old(s.frontMode) && s.pulses == old(s.pulses)
      && unchanged(s.rear, s.left, s.right)
    case Unlock =>
      && s.lockDuty == UNLOCKED_DUTY
      && s.frontMode == old(s.frontMode) && s.pulses == old(s.pulses)
      && unchanged(s.rear, s.left, s.right)
  }

  /** The actuator calls of one command, in the order the write handler issues them. */
  method Execute(s: Actuators, c: Command)
    requires s.Valid()
    modifies s, s.rear, s.left, s.right
    ensures s.Valid() && Performed(s, c)
  {
    match c
    case Hazard => s.HazardLights();
    case AllOff => s.OffAll();
    case Front(m) => s.SetFrontMode(m);
    case RearRest(on) =>
      if on { s.OnRear(); } else { s.OffRear(); }
    case RearBlink => s.StartBlinkRear();
    case TurnOff =>
      s.DoneLeftTurn();
      s.DoneRightTurn();
    case TurnLeft =>
      s.DoneRightTurn();
      s.TurnLeft();
    case TurnRight =>
      s.DoneLeftTurn();
      s.TurnRight();
    case Lock => s.Lock();
    case Unlock => s.Unlock();
    case Ignore =>
  }

  /** `LightCharacteristic.WriteValue`: only the first two bytes of the written value are read,
      as device and state. */
  method WriteValue(s: Actuators, value: seq<Byte>)
    requires |value| >= 2
    requires s.Valid()
    modifies s, s.rear, s.left, s.right
    ensures s.Valid() && Performed(s, Decode(value[0], value[1]))
  {
    var device := value[0];
    var state := value[1];
    Execute(s, Decode(device, state));
  }
}
