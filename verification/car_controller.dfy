/**
  The keyboard car controller: attaching a key map to each controlled car
  and turning the pressed actions into driving actions every tick.
 */
module CarController {
  import opened Base
  import opened Actions

  /** The actions a player can press (`CarControl`). */
  datatype CarControl = Accelerate | Brake | TurnLeft | TurnRight

  /** Which keys a car is driven with. */
  datatype Controller = ArrowKeys | WASDKeys

  /** A key map: the keys bound to each action, in binding order. */
  type InputMap = seq<(CarControl, KeyCode)>

  /** `Controller::leafwing_input_map`. */
  function LeafwingInputMap(c: Controller): (m: InputMap)
    ensures |m| == 4
    ensures forall i, j :: 0 <= i < j < |m| ==> m[i].0 != m[j].0 && m[i].1 != m[j].1
  {
    match c
    case WASDKeys => [(Accelerate, KeyW), (Brake, KeyS), (TurnLeft, KeyA), (TurnRight, KeyD)]
    case ArrowKeys => [(Accelerate, ArrowUp), (Brake, ArrowDown), (TurnLeft, ArrowLeft), (TurnRight, ArrowRight)]
  }

  /** The action a key triggers under a map: the first binding of the key. */
  function ActionOf(m: InputMap, k: KeyCode): Option<CarControl>
  {
    if |m| == 0 then None else if m[0].1 == k then Some(m[0].0) else ActionOf(m[1..], k)
  }

  /** The keys bound to an action. */
  function KeysOf(m: InputMap, a: CarControl): seq<KeyCode>
  {
    if |m| == 0 then [] else (if m[0].0 == a then [m[0].1] else []) + KeysOf(m[1..], a)
  }

  /** Each controller binds every action to exactly one key, no key twice,
      and each bound key triggers its own action. */
  lemma InputMapBindsEachActionOnce(c: Controller, a: CarControl)
    ensures var m := LeafwingInputMap(c);
            && |m| == 4
            && (forall i, j :: 0 <= i < j < |m| ==> m[i].1 != m[j].1 && m[i].0 != m[j].0)
            && |KeysOf(m, a)| == 1
            && ActionOf(m, KeysOf(m, a)[0]) == Some(a)
  {
    var m := LeafwingInputMap(c);
    var i := match a case Accelerate => 0 case Brake => 1 case TurnLeft => 2 case TurnRight => 3;
    KeysOfDistinct(m, i);
    ActionOfDistinct(m, i);
  }

  /** In a map that binds each action once, an action's keys are its one
      binding. */
  lemma {:induction false} KeysOfDistinct(m: InputMap, i: nat)
    requires i < |m|
    requires forall p, q :: 0 <= p < q < |m| ==> m[p].0 != m[q].0
    ensures KeysOf(m, m[i].0) == [m[i].1]
  {
    if i == 0 {
      KeysOfAbsent(m[1..], m[0].0);
    } else {
      KeysOfDistinct(m[1..], i - 1);
    }
  }

  lemma KeysOfAbsent(m: InputMap, a: CarControl)
    requires forall p :: 0 <= p < |m| ==> m[p].0 != a
    ensures KeysOf(m, a) == []
  {
  }

  /** In a map that binds no key twice, a bound key triggers its action. */
  lemma {:induction false} ActionOfDistinct(m: InputMap, i: nat)
    requires i < |m|
    requires forall p, q :: 0 <= p < q < |m| ==> m[p].1 != m[q].1
    ensures ActionOf(m, m[i].1) == Some(m[i].0)
  {
    if i > 0 {
      ActionOfDistinct(m[1..], i - 1);
    }
  }

  /** The two controllers share no key. */
  lemma ControllersUseDisjointKeys(i: nat, j: nat)
    requires i < 4 && j < 4
    ensures LeafwingInputMap(WASDKeys)[i].1 != LeafwingInputMap(ArrowKeys)[j].1
  {
  }

  /** `add_controller`: every car with a `Controller` and no key map gets
      its controller's map; cars that have one keep it. */
  function AddController(controllers: map<Entity, Controller>, maps: map<Entity, InputMap>): (r: map<Entity, InputMap>)
    ensures r.Keys == maps.Keys + controllers.Keys
    ensures forall e :: e in maps ==> r[e] == maps[e]
    ensures forall e :: e in controllers && e !in maps ==> r[e] == LeafwingInputMap(controllers[e])
  {
    map e | e in maps.Keys + controllers.Keys :: if e in maps then maps[e] else LeafwingInputMap(controllers[e])
  }

  /** A second run adds nothing. */
  lemma AddControllerIdempotent(controllers: map<Entity, Controller>, maps: map<Entity, InputMap>)
    ensures var once := AddController(controllers, maps);
            AddController(controllers, once) == once
  {
  }

  /** The component writes `handle_controls` queues for one car, in order. */
  datatype CarCommand = InsertAccelerate(a: Accelerate) | InsertSteer(angle: real)

  /** The driving components of a car. */
  datatype Driving = Driving(accelerate: Option<Accelerate>, steer: Option<real>)

  function ApplyCommands(d: Driving, cmds: seq<CarCommand>): Driving
    decreases |cmds|
  {
    if |cmds| == 0 then d
    else
      var next := match cmds[0]
        case InsertAccelerate(a) => d.(accelerate := Some(a))
        case InsertSteer(x) => d.(steer := Some(x));
      ApplyCommands(next, cmds[1..])
  }

  /** The steering input: `+1` for left, `-1` for right, summed. */
  function SteeringAngle(pressed: set<CarControl>): real
  {
    (if TurnLeft in pressed then 1.0 else 0.0) - (if TurnRight in pressed then 1.0 else 0.0)
  }

  /** `handle_controls` for one car: forward if accelerating, then backward
      if braking, then the steering angle. */
  function ControlCommands(pressed: set<CarControl>): (cmds: seq<CarCommand>)
    ensures |cmds| > 0 && cmds[|cmds| - 1] == InsertSteer(SteeringAngle(pressed))
  {
    (if Accelerate in pressed then [InsertAccelerate(Forward)] else [])
    + (if Brake in pressed then [InsertAccelerate(Backward)] else [])
    + [InsertSteer(SteeringAngle(pressed))]
  }

  /** What a car drives with after the commands of a tick take effect:
      brake wins over accelerate, an untouched accelerate stays as it was,
      and the steering is always written. */
  lemma ControlsTakeEffect(d: Driving, pressed: set<CarControl>)
    ensures var after := ApplyCommands(d, ControlCommands(pressed));
            && (Brake in pressed ==> after.accelerate == Some(Backward))
            && (Accelerate in pressed && Brake !in pressed ==> after.accelerate == Some(Forward))
            && (Accelerate !in pressed && Brake !in pressed ==> after.accelerate == d.accelerate)
            && after.steer == Some(SteeringAngle(pressed))
  {
    var cmds := ControlCommands(pressed);
    var acc := if Accelerate in pressed then [InsertAccelerate(Forward)] else [];
    var brk := if Brake in pressed then [InsertAccelerate(Backward)] else [];
    ApplyConcat(d, acc, brk + [InsertSteer(SteeringAngle(pressed))]);
    var d1 := ApplyCommands(d, acc);
    ApplyConcat(d1, brk, [InsertSteer(SteeringAngle(pressed))]);
    assert cmds == acc + (brk + [InsertSteer(SteeringAngle(pressed))]);
  }

  lemma ApplyConcat(d: Driving, a: seq<CarCommand>, b: seq<CarCommand>)
    ensures ApplyCommands(d, a + b) == ApplyCommands(ApplyCommands(d, a), b)
    decreases |a|
  {
    if |a| > 0 {
      assert (a + b)[1..] == a[1..] + b;
    } else {
      assert a + b == b;
    }
  }

  /** Steering is `+1` with left only, `-1` with right only, and `0` with
      both or neither. */
  lemma SteeringCases(pressed: set<CarControl>)
    ensures SteeringAngle(pressed) == 1.0 <==> TurnLeft in pressed && TurnRight !in pressed
    ensures SteeringAngle(pressed) == -1.0 <==> TurnRight in pressed && TurnLeft !in pressed
    ensures SteeringAngle(pressed) == 0.0 <==> (TurnLeft in pressed <==> TurnRight in pressed)
  {
  }

  /** `handle_controls` over all cars with an action state: each one's
      commands, so every such car gets a steering write. */
  function HandleControls(actionStates: map<Entity, set<CarControl>>): (r: map<Entity, seq<CarCommand>>)
    ensures r.Keys == actionStates.Keys
    ensures forall e :: e in r ==> |r[e]| > 0 && r[e][|r[e]| - 1] == InsertSteer(SteeringAngle(actionStates[e]))
  {
    map e | e in actionStates :: ControlCommands(actionStates[e])
  }
}
