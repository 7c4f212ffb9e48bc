/**
  The arrow-key drive input: one fixed key map, and per tick independent
  accelerate and brake markers plus a turn angle of a full
  `TURNING_ANGLE` per pressed direction.
 */
module DriveInput {
  import opened Base
  import opened Actions

  /** The actions of the drive input (`DriveInput`). */
  datatype DriveAction = Accelerate | Brake | TurnLeft | TurnRight

  /** `DriveInput::car_input_map`: the four arrow keys, inserted in this
      order. */
  function CarInputMap(): (m: seq<(DriveAction, KeyCode)>)
    ensures |m| == 4
    ensures forall i, j :: 0 <= i < j < |m| ==> m[i].0 != m[j].0 && m[i].1 != m[j].1
  {
    [(Accelerate, ArrowUp), (Brake, ArrowDown), (TurnLeft, ArrowLeft), (TurnRight, ArrowRight)]
  }

  /** The key of an action under `CarInputMap`, and back. */
  function KeyOf(a: DriveAction): KeyCode
  {
    match a
    case Accelerate => ArrowUp
    case Brake => ArrowDown
    case TurnLeft => ArrowLeft
    case TurnRight => ArrowRight
  }

  function ActionOf(k: KeyCode): Option<DriveAction>
  {
    match k
    case ArrowUp => Some(Accelerate)
    case ArrowDown => Some(Brake)
    case ArrowLeft => Some(TurnLeft)
    case ArrowRight => Some(TurnRight)
    case _ => None
  }

  /** The map binds four distinct arrow keys, one per action, and
      `KeyOf`/`ActionOf` read it in both directions. */
  lemma CarInputMapIsArrowKeys(a: DriveAction, k: KeyCode)
    ensures var m := CarInputMap();
            && |m| == 4
            && (forall i, j :: 0 <= i < j < 4 ==> m[i].0 != m[j].0 && m[i].1 != m[j].1)
            && (forall i :: 0 <= i < 4 ==> KeyOf(m[i].0) == m[i].1)
    ensures ActionOf(KeyOf(a)) == Some(a)
    ensures ActionOf(k).Some? ==> KeyOf(ActionOf(k).value) == k
  {
  }

  /** What `car_input` inserts for one car this tick. */
  datatype CarInput = CarInput(accelerate: bool, brake: bool, turn: real)

  /** `DriveInput::car_input` for one car. */
  function CarInputFor(pressed: set<DriveAction>): (r: CarInput)
    ensures r.accelerate <==> Accelerate in pressed
    ensures r.brake <==> Brake in pressed
    ensures r.turn == TURNING_ANGLE <==> TurnLeft in pressed && TurnRight !in pressed
    ensures r.turn == -TURNING_ANGLE <==> TurnRight in pressed && TurnLeft !in pressed
    ensures r.turn == 0.0 <==> (TurnLeft in pressed <==> TurnRight in pressed)
  {
    var angle := 0.0;
    var angle := if TurnLeft in pressed then angle + TURNING_ANGLE else angle;
    var angle := if TurnRight in pressed then angle - TURNING_ANGLE else angle;
    CarInput(Accelerate in pressed, Brake in pressed, angle)
  }

  /** Pressing both pedals sets both markers. */
  lemma BothPedalsBothMarkers()
    ensures var r := CarInputFor({Accelerate, Brake});
            r.accelerate && r.brake && r.turn == 0.0
  {
  }

  /** `car_input` over every car with an action state: every such car gets
      a turn action. */
  function CarInputs(actionStates: map<Entity, set<DriveAction>>): (r: map<Entity, CarInput>)
    ensures r.Keys == actionStates.Keys
    ensures forall e :: e in r ==>
              && (r[e].accelerate <==> Accelerate in actionStates[e])
              && (r[e].brake <==> Brake in actionStates[e])
              && r[e].turn == CarInputFor(actionStates[e]).turn
  {
    map e | e in actionStates :: CarInputFor(actionStates[e])
  }
}
