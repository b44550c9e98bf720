/** servo: six servos moved towards their targets by the timer interrupt. */
module Servo {

  const MAX_SERVOS := 6

  type uint16 = x: int | 0 <= x < 0x1_0000

  /** SERVO_DATA */
  datatype Servo = Servo(target: uint16, position: uint16, positionReg: uint16, speed: uint16)

  datatype State = State(servos: seq<Servo>, moving: bool)

  /** ~position + 1 in sixteen bits. */
  function Complement(position: uint16): uint16 { (0xFFFF - position + 1) % 0x1_0000 }

  function Placed(d: Servo, position: uint16): Servo { d.(position := position, positionReg := Complement(position)) }

  // ---------- one round ----------

  predicate Limited(d: Servo) { d.speed > 0 && d.position > 0 }

  function Distance(d: Servo): nat {
    if d.target > d.position then d.target - d.position else d.position - d.target
  }

  /** One servo's share of a round: where it goes, and whether it says it is moving. */
  function Moved(d: Servo): (r: (Servo, bool)) {
    if !Limited(d) then (Placed(d, d.target), false)
    else if d.target > d.position then
      if d.target - d.position < d.speed then (Placed(d, d.target), false)
      else (Placed(d, d.position + d.speed), true)
    else
      if d.position - d.target < d.speed then (Placed(d, d.target), false)
      else (Placed(d, d.position - d.speed), true)
  }

  function Update(s: State): State {
    State(seq(|s.servos|, i requires 0 <= i < |s.servos| => Moved(s.servos[i]).0),
          exists i | 0 <= i < |s.servos| :: Moved(s.servos[i]).1)
  }

  function Updates(s: State, rounds: nat): State {
    if rounds == 0 then s else Update(Updates(s, rounds - 1))
  }

  function Rounds(d: Servo, rounds: nat): Servo {
    if rounds == 0 then d else Moved(Rounds(d, rounds - 1)).0
  }

  // ---------- motion with a speed limit ----------

  /** Where a servo is after some rounds: it moves straight to its target by its speed
      each round and stays there. */
  lemma {:induction false} MotionIsExact(d: Servo, rounds: nat)
    requires Limited(d) && d.target > 0
    ensures var r := Rounds(d, rounds);
      && r.target == d.target && r.speed == d.speed && Limited(r)
      && Distance(r) == (if rounds * d.speed <= Distance(d) then Distance(d) - rounds * d.speed else 0)
      && (d.position <= d.target ==> d.position <= r.position <= d.target)
      && (d.target <= d.position ==> d.target <= r.position <= d.position)
      && (rounds > 0 ==> r.positionReg == Complement(r.position))
  {
    if rounds > 0 {
      MotionIsExact(d, rounds - 1);
      assert rounds * d.speed == (rounds - 1) * d.speed + d.speed;
    }
  }

  /** It says it is moving in exactly the first floor(distance / speed) rounds, and is at
      its target one round later at the latest. */
  lemma MovingIsExact(d: Servo, rounds: nat)
    requires Limited(d) && d.target > 0
    ensures Moved(Rounds(d, rounds)).1 <==> rounds < Distance(d) / d.speed
    ensures rounds >= Distance(d) / d.speed + 1 ==> Rounds(d, rounds).position == d.target
    ensures Rounds(d, rounds).position == d.target <==> rounds * d.speed >= Distance(d)
  {
    MotionIsExact(d, rounds);
    FloorIs(Distance(d), d.speed, rounds);
  }

  /** What division by the speed means for a number of rounds. */
  lemma FloorIs(distance: nat, speed: nat, rounds: nat)
    requires speed > 0
    ensures rounds < distance / speed <==> (rounds + 1) * speed <= distance
    ensures rounds >= distance / speed + 1 ==> rounds * speed >= distance
    ensures (rounds + 1) * speed == rounds * speed + speed
  {
    var q := distance / speed;
    var r := distance % speed;
    assert distance == q * speed + r;
    Distribute(rounds, 1, speed);
    if rounds < q {
      Distribute(rounds + 1, q - rounds - 1, speed);
    } else if rounds > q {
      Distribute(q, 1, speed);
      Distribute(q + 1, rounds - q - 1, speed);
    }
  }

  lemma Distribute(a: nat, b: nat, c: nat)
    ensures (a + b) * c == a * c + b * c && b * c >= 0
  {
  }

  // ---------- what holds in every reachable state ----------

  /** A servo is off exactly if its target is 0, the register follows the position, and a
      clear flag means every servo has arrived. */
  ghost predicate Inv(s: State) {
    && |s.servos| == MAX_SERVOS
    && (forall i | 0 <= i < |s.servos| :: var d := s.servos[i];
          && (d.position == 0 <==> d.target == 0)
          && d.positionReg == Complement(d.position)
          && (!s.moving ==> d.position == d.target))
  }

  lemma UpdateKeeps(s: State)
    requires Inv(s)
    ensures Inv(Update(s))
  {
    var t := Update(s);
    forall i | 0 <= i < |t.servos|
      ensures var d := t.servos[i];
        && (d.position == 0 <==> d.target == 0)
        && d.positionReg == Complement(d.position)
        && (!t.moving ==> d.position == d.target)
    {
      assert Moved(s.servos[i]).1 ==> t.moving;
    }
  }

  lemma {:induction false} UpdatesAreRounds(s: State, rounds: nat)
    requires |s.servos| == MAX_SERVOS
    ensures |Updates(s, rounds).servos| == MAX_SERVOS
    ensures forall i | 0 <= i < MAX_SERVOS :: Updates(s, rounds).servos[i] == Rounds(s.servos[i], rounds)
  {
    if rounds > 0 {
      UpdatesAreRounds(s, rounds - 1);
    }
  }

  /** With no commands in between, servosMoving() answers yes after exactly as many rounds
      as the servo with the longest way to go needs. */
  lemma MovingFlagIsExact(s: State, rounds: nat)
    requires Inv(s)
    ensures Updates(s, rounds + 1).moving <==>
      exists i | 0 <= i < MAX_SERVOS :: Limited(s.servos[i]) && rounds < Distance(s.servos[i]) / s.servos[i].speed
  {
    UpdatesAreRounds(s, rounds);
    var now := Updates(s, rounds);
    forall i | 0 <= i < MAX_SERVOS
      ensures Moved(now.servos[i]).1 <==> Limited(s.servos[i]) && rounds < Distance(s.servos[i]) / s.servos[i].speed
    {
      var d := s.servos[i];
      if Limited(d) {
        MovingIsExact(d, rounds);
      } else {
        UnlimitedStays(d, rounds);
      }
    }
  }

  lemma {:induction false} UnlimitedStays(d: Servo, rounds: nat)
    requires !Limited(d) && (d.position == 0 <==> d.target == 0)
    ensures var r := Rounds(d, rounds); !Limited(r) && (r.position == 0 <==> r.target == 0)
    ensures var r := Rounds(d, rounds); r.target == d.target && (rounds > 0 ==> r.position == d.target)
  {
    if rounds > 0 {
      UnlimitedStays(d, rounds - 1);
    }
  }

  // ---------- commands ----------

  function Targeted(s: State, n: nat, target: uint16): State
    requires n < |s.servos|
  {
    var d := s.servos[n];
    if d.speed == 0 || d.target == 0 || target == 0 then s.(servos := s.servos[n := Placed(d, target).(target := target)])
    else State(s.servos[n := d.(target := target)], s.moving || target != d.position)
  }

  /** The compare register holds the negative of the position in sixteen bits, so that the
      timer overflows after as many ticks as the position says. */
  lemma RegisterIsNegative(position: uint16)
    ensures (position + Complement(position)) % 0x1_0000 == 0
  {
  }

  /** A new target concerns one servo and stays with it.  A servo that is off, is switched
      off or has no speed limit is there at once, and the moving flag is left alone; any
      other does not jump, and the flag is set if it has somewhere to go. */
  lemma TargetIsSet(s: State, n: nat, target: uint16)
    requires Inv(s) && n < MAX_SERVOS
    ensures var t := Targeted(s, n, target); var d, d' := s.servos[n], t.servos[n];
      && Inv(t) && (forall k | 0 <= k < MAX_SERVOS && k != n :: t.servos[k] == s.servos[k])
      && d'.target == target && d'.speed == d.speed && (d'.position + d'.positionReg) % 0x1_0000 == 0
      && (if d.speed == 0 || d.position == 0 || target == 0 then d'.position == target && t.moving == s.moving
          else d'.position == d.position && (t.moving <==> s.moving || Distance(d') > 0))
  {
    RegisterIsNegative(target);
    RegisterIsNegative(s.servos[n].position);
    var t := Targeted(s, n, target);
    assert forall k | 0 <= k < MAX_SERVOS && k != n :: t.servos[k] == s.servos[k];
  }

  /** servoSetTarget: sixteen-bit multiplication. */
  function Ticks(microseconds: uint16): uint16 { microseconds * 24 % 0x1_0000 }

  /** Reading a target back gives what was set exactly up to 2730 microseconds. */
  lemma TargetReadsBackIff(microseconds: uint16)
    ensures Ticks(microseconds) / 24 == microseconds <==> microseconds <= 2730
  {
    assert Ticks(microseconds) / 24 <= 0xFFFF / 24 == 2730;
  }

  function Channel(pin: int): nat {
    match pin
    case 2 => 0
    case 3 => 1
    case 4 => 2
    case 12 => 3
    case 11 => 4
    case 10 => 5
    case _ => 0
  }

  // ---------- the driver ----------

  class ServoDriver {
    const servoData: array<Servo>
    const servoAssignment: array<nat>
    var servosMovingFlag: bool
    var servoCounter: nat
    /** T1CC0 to T1CC2 */
    const compare: array<uint16>

    function Value(): State
      reads this, servoData
    {
      State(servoData[..], servosMovingFlag)
    }

    ghost predicate Valid()
      reads this, servoData, servoAssignment, compare
    {
      && Inv(Value()) && servoCounter <= 6
      && servoAssignment.Length == MAX_SERVOS && (forall i | 0 <= i < MAX_SERVOS :: servoAssignment[i] < MAX_SERVOS)
      && compare.Length == 3
    }

    constructor ()
      ensures Valid() && fresh(servoData) && fresh(servoAssignment) && fresh(compare)
      ensures !servosMovingFlag && forall i | 0 <= i < MAX_SERVOS :: servoData[i] == Servo(0, 0, 0, 0)
    {
      servoData := new Servo[MAX_SERVOS](_ => Servo(0, 0, 0, 0));
      servoAssignment := new nat[MAX_SERVOS](_ => 0);
      compare := new uint16[3](_ => 0xFFFF);
      servosMovingFlag, servoCounter := false, 0;
    }

    /** Case 6 of the interrupt. */
    method UpdatePositions()
      requires Valid()
      modifies this`servosMovingFlag, this`servoCounter, servoData
      ensures Value() == Update(old(Value())) && servoCounter == 0 && Valid()
    {
      UpdateKeeps(Value());
      ghost var was := Value();
      hide Inv;
      servoCounter := 0;
      servosMovingFlag := false;
      for i := 0 to MAX_SERVOS
        modifies this`servosMovingFlag, servoData
        invariant forall k | 0 <= k < i :: servoData[k] == Moved(was.servos[k]).0
        invariant forall k | i <= k < MAX_SERVOS :: servoData[k] == was.servos[k]
        invariant servosMovingFlag <==> exists k | 0 <= k < i :: Moved(was.servos[k]).1
      {
        var d := servoData[i];
        var pos := d.position;
        var raise := false;
        if d.speed != 0 && pos != 0 {
          if d.target > pos {
            if d.target - pos < d.speed {
              pos := d.target;
            } else {
              pos, raise := pos + d.speed, true;
            }
          } else {
            if pos - d.target < d.speed {
              pos := d.target;
            } else {
              pos, raise := pos - d.speed, true;
            }
          }
        } else {
          pos := d.target;
        }
        servoData[i] := d.(position := pos, positionReg := Complement(pos));
        servosMovingFlag := servosMovingFlag || raise;
        assert raise == Moved(was.servos[i]).1;
      }
      assert servoData[..] == Update(was).servos;
    }

    /** The timer interrupt: three servos get their pulses in one timer period, the other
        three three periods later, and no pulse is repeated. */
    method TimerInterrupt()
      requires Valid()
      modifies this`servosMovingFlag, this`servoCounter, servoData, compare
      ensures Valid() && servoCounter == (if old(servoCounter) == 6 then 0 else old(servoCounter) + 1)
      ensures Value() == if old(servoCounter) == 6 then Update(old(Value())) else old(Value())
      ensures compare[..] == match old(servoCounter)
        case 0 => seq(3, i requires 0 <= i < 3 => old(servoData[i].positionReg))
        case 3 => seq(3, i requires 0 <= i < 3 => old(servoData[i + 3].positionReg))
        case 1 => [0xFFFF, 0xFFFF, 0xFFFF]
        case 4 => [0xFFFF, 0xFFFF, 0xFFFF]
        case _ => old(compare[..])
    {
      var c := servoCounter;
      servoCounter := servoCounter + 1;
      match c
      case 0 => compare[0], compare[1], compare[2] := servoData[0].positionReg, servoData[1].positionReg, servoData[2].positionReg;
      case 3 => compare[0], compare[1], compare[2] := servoData[3].positionReg, servoData[4].positionReg, servoData[5].positionReg;
      case 1 => compare[0], compare[1], compare[2] := 0xFFFF, 0xFFFF, 0xFFFF;
      case 4 => compare[0], compare[1], compare[2] := 0xFFFF, 0xFFFF, 0xFFFF;
      case 6 => servoCounter := 6; UpdatePositions();
      case _ =>
    }

    method SetTargetHighRes(servoNum: nat, target: uint16)
      requires Valid() && servoNum < MAX_SERVOS
      modifies this`servosMovingFlag, servoData
      ensures Valid() && Value() == Targeted(old(Value()), servoAssignment[servoNum], target)
    {
      var n := servoAssignment[servoNum];
      var d := servoData[n];
      if d.speed == 0 || d.target == 0 || target == 0 {
        servoData[n] := d.(position := target, positionReg := Complement(target));
      } else if target != d.position {
        servosMovingFlag := true;
      }
      servoData[n] := servoData[n].(target := target);
      assert Value().servos == Targeted(old(Value()), n, target).servos;
    }

    method SetSpeed(servoNum: nat, speed: uint16)
      requires Valid() && servoNum < MAX_SERVOS
      modifies servoData
      ensures Valid()
      ensures Value() == var s, n := old(Value()), servoAssignment[servoNum];
        s.(servos := s.servos[n := s.servos[n].(speed := speed)])
    {
      var n := servoAssignment[servoNum];
      servoData[n] := servoData[n].(speed := speed);
    }

    /** servosStart with pins: every servo is off, and the named ones get their channels. */
    method Start(pins: seq<int>)
      requires Valid()
      modifies servoData, servoAssignment, this`servoCounter, compare
      ensures Valid() && servoCounter == 0 && compare[..] == [0xFFFF, 0xFFFF, 0xFFFF]
      ensures forall i | 0 <= i < MAX_SERVOS :: servoData[i] == Servo(0, 0, 0, 0)
      ensures forall i | 0 <= i < MAX_SERVOS ::
        servoAssignment[i] == if i < |pins| then Channel(pins[i]) else old(servoAssignment[i])
    {
      for i := 0 to MAX_SERVOS
        modifies servoData, servoAssignment
        invariant forall k | 0 <= k < i :: servoData[k] == Servo(0, 0, 0, 0)
        invariant forall k | 0 <= k < MAX_SERVOS ::
          servoAssignment[k] == if k < i && k < |pins| then Channel(pins[k]) else old(servoAssignment[k])
      {
        servoData[i] := Servo(0, 0, 0, 0);
        if i < |pins| {
          servoAssignment[i] := Channel(pins[i]);
        }
      }
      servoCounter := 0;
      compare[0], compare[1], compare[2] := 0xFFFF, 0xFFFF, 0xFFFF;
    }
  }
}
