/**
  The bot controller. Each tick it first refreshes the state of every bot
  whose car can be read, then makes every bot with a state drive forward
  and steer a little to one side chosen by a coin flip from the bot's own
  random stream.
 */
module BotController {
  import opened Base
  import opened Actions

  /** Where the bot would like to be (`BotState`). */
  datatype BotState = BotState(idealPosition: Vec2, idealRotation: real)

  /** The state every bot is given: the origin, facing angle zero. */
  const GoalState: BotState := BotState(Zero, 0.0)

  /** The coin flip: draws below this bound (`u32::MAX / 2`) steer left. */
  const STEER_LEFT_BELOW: nat := U32_MAX / 2

  /** The magnitude of a bot's steering input. */
  const BOT_STEER: real := 0.1

  /** `compute_goal_positions`: every bot whose car data (`Transform`,
      `LinearVelocity`) can be read gets the goal state, overwriting or
      inserting; bots whose car cannot be read keep what they had. */
  function ComputeGoalPositions(bots: set<Entity>, readable: set<Entity>, states: map<Entity, BotState>): (r: map<Entity, BotState>)
    ensures r.Keys == states.Keys + (bots * readable)
    ensures forall e :: e in bots && e in readable ==> r[e] == GoalState
    ensures forall e :: e in states && !(e in bots && e in readable) ==> r[e] == states[e]
  {
    map e | e in states.Keys + (bots * readable) :: if e in bots && e in readable then GoalState else states[e]
  }

  /** Refreshing the states twice in a tick is the same as once. */
  lemma GoalPositionsIdempotent(bots: set<Entity>, readable: set<Entity>, states: map<Entity, BotState>)
    ensures var once := ComputeGoalPositions(bots, readable, states);
            ComputeGoalPositions(bots, readable, once) == once
  {
  }

  /** The controls written for one bot. */
  datatype Controls = Controls(accelerate: Accelerate, steer: real)

  /** The steering for a draw: left (`+0.1`) below the bound, right
      (`-0.1`) otherwise. */
  function Steer(draw: U32): (s: real)
    ensures s == BOT_STEER || s == -BOT_STEER
    ensures s > 0.0 <==> draw < STEER_LEFT_BELOW
  {
    (if draw < STEER_LEFT_BELOW then 1.0 else -1.0) * BOT_STEER
  }

  /** The bots `decide_bot_controls` visits: those with a `BotController`,
      a `BotState` and an `Entropy` stream. */
  function Controlled(bots: set<Entity>, states: map<Entity, BotState>, streams: map<Entity, seq<U32>>): set<Entity>
  {
    bots * states.Keys * streams.Keys
  }

  /** The controls of the visited bots and what is left of every stream. */
  datatype Decision = Decision(controls: map<Entity, Controls>, streams: map<Entity, seq<U32>>)

  /** `decide_bot_controls`: every visited bot accelerates forward and
      steers by one draw from its own stream. */
  function DecideBotControls(bots: set<Entity>, states: map<Entity, BotState>, streams: map<Entity, seq<U32>>): (r: Result<Decision>)
    ensures r.Err? <==> exists e :: e in Controlled(bots, states, streams) && |streams[e]| == 0
    ensures r.Err? ==> r.error == Exhausted
    ensures r.Ok? ==> r.value.controls.Keys == Controlled(bots, states, streams)
    ensures r.Ok? ==> r.value.streams.Keys == streams.Keys
    ensures r.Ok? ==> forall e :: e in r.value.controls ==>
              && r.value.controls[e].accelerate == Forward
              && (r.value.controls[e].steer == BOT_STEER || r.value.controls[e].steer == -BOT_STEER)
              && (r.value.controls[e].steer > 0.0 <==> streams[e][0] < STEER_LEFT_BELOW)
              && streams[e] == [streams[e][0]] + r.value.streams[e]
    ensures r.Ok? ==> forall e :: e in streams && e !in r.value.controls ==> r.value.streams[e] == streams[e]
  {
    var visited := Controlled(bots, states, streams);
    if exists e :: e in visited && |streams[e]| == 0 then Err(Exhausted)
    else
      var controls := map e | e in visited :: Controls(Forward, Steer(streams[e][0]));
      var rest := map e | e in streams :: if e in visited then streams[e][1..] else streams[e];
      assert forall e :: e in visited ==> streams[e] == [streams[e][0]] + rest[e];
      Ok(Decision(controls, rest))
  }

  /** The streams after `ticks` ticks of `decide_bot_controls` with a fixed
      set of bots and states. */
  function RunTicks(bots: set<Entity>, states: map<Entity, BotState>, streams: map<Entity, seq<U32>>, ticks: nat): Result<map<Entity, seq<U32>>>
  {
    if ticks == 0 then Ok(streams)
    else match DecideBotControls(bots, states, streams)
      case Err(e) => Err(e)
      case Ok(d) => RunTicks(bots, states, d.streams, ticks - 1)
  }

  /** Over `ticks` ticks, each visited bot uses exactly `ticks` draws of its
      own stream, the first ones, and no other stream is touched. */
  lemma {:induction false} TicksUseOneDrawEach(bots: set<Entity>, states: map<Entity, BotState>, streams: map<Entity, seq<U32>>, ticks: nat)
    ensures var r := RunTicks(bots, states, streams, ticks);
            r.Ok? ==> && r.value.Keys == streams.Keys
                      && (forall e :: e in Controlled(bots, states, streams) ==>
                            ticks <= |streams[e]| && r.value[e] == streams[e][ticks..])
                      && (forall e :: e in streams && e !in Controlled(bots, states, streams) ==>
                            r.value[e] == streams[e])
  {
    if ticks > 0 {
      var d := DecideBotControls(bots, states, streams);
      if d.Ok? {
        var next := d.value.streams;
        assert Controlled(bots, states, next) == Controlled(bots, states, streams);
        TicksUseOneDrawEach(bots, states, next, ticks - 1);
        var r := RunTicks(bots, states, streams, ticks);
        if r.Ok? {
          forall e | e in Controlled(bots, states, streams)
            ensures ticks <= |streams[e]| && r.value[e] == streams[e][ticks..]
          {
            assert next[e] == streams[e][1..];
            assert streams[e][1..][ticks - 1..] == streams[e][ticks..];
          }
        }
      }
    }
  }
}
