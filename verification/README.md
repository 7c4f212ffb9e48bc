# TAGCAR game rules in Dafny

This project models the game rules of TAGCAR, a top-down racing and tag game
built on the Bevy ECS. The ECS world is reduced to plain data: entities are
opaque ids, component queries are maps and sets, and each system is a pure
function from the state it reads to the state it writes. Floats are reals.
Random streams are finite sequences of 32-bit draws. Trigonometry, vector
normalisation and the easing curve are parameters.

Modules, one per source file:

- `Base`: entities, `Option`, `Result` with its two error outcomes, `u32` draws, 2-D vectors.
- `Actions`: the driving actions the input systems write, the key codes, `Car::TURNING_ANGLE`.
- `Track` (`plugins/track`): checkpoint trackers and lap completion, the checkpoint pose generator, the collision pairing system, the track interior.
- `LapTag` (`plugins/laptag`): tag transfer on collision, lap reset on a change of tag, scoring.
- `Resurfacer` (`plugins/resurfacer`): the resurfacer's checkpoint following, its start position, the peg placement loop and the replacement of each checkpoint's obstacles.
- `BotController` (`plugins/bot-controller`): bot states and the coin-flip steering.
- `GameLoop` (`src/game_loop.rs`): the game-over decision and the restart guard.
- `Scoreboard` (`plugins/scoreboard`): the rebuild trigger, the stable descending sort and the rows.
- `CarController` (`plugins/controller`): key maps and the action-to-command mapping.
- `DriveInput` (`controller`): the arrow-key drive input.
- `Camera` (`plugins/camera`): the clamped camera target.
- `Slowmo` (`plugins/slowmo`): the slow-motion clock.

Conventions:

- An `expect`, `unwrap`, `single` or `single_mut` that would panic is an `Err(Panic(..))` result.
- A finite random stream that runs out is `Err(Exhausted)`. The game's streams never run out.

## Model

| member | source | states |
|---|---|---|
| Track.ReachCheckpoint | plugins/track/src/lib.rs:282-294 | The checkpoint is added and nothing is removed. A lap for this racer is reported iff the set size after insertion reaches the expected total. |
| Track.Clear | plugins/track/src/lib.rs:300-302 | After `clear` the tracker contains no checkpoint. |
| Track.ReachRecordedIsIdempotent | plugins/track/src/lib.rs:278-288 | Reaching a recorded checkpoint leaves the hash set unchanged. |
| Track.LapCompletesWhenAllReached | plugins/track/src/lib.rs:288-293 | Once every one of `expected_total` distinct checkpoints is in the set, the lap completes. |
| Track.ContainsIffReachedSinceClear | plugins/track/src/lib.rs:282-302 | For any run of reach and clear calls, `contains` is true exactly for the checkpoints reached after the last clear. |
| Track.RunLaps | plugins/track/src/lib.rs:282-294 | A run of checkpoint collisions with the tracker as written. The tracker only grows. |
| Track.LapRepeatsWithoutReset | plugins/track/src/lib.rs:282-294 | With two checkpoints, reaching A, B, A reports two laps: after the first lap every collision completes another. |
| Track.ReachCheckpointResetting | plugins/track/src/lib.rs:282-294 | The corrected tracker: the same lap condition, and the tracker starts over when the lap completes. |
| Track.ResettingLapBudget | plugins/track/src/lib.rs:282-294 | With the corrected tracker, the laps times the total, plus what is left in the tracker, is at most the collisions plus the starting size. |
| Track.LapsNeedFullRounds | plugins/track/src/lib.rs:282-294 | With the corrected tracker, every lap costs at least `expected_total` collisions. |
| Track.Checkpoints | plugins/track/src/lib.rs:144-197 | With n >= 1 subdivisions the generator yields exactly 4n poses. |
| Track.StraightAt | plugins/track/src/lib.rs:157-172 | Index i of the top side and index 2n + i of the bottom side are the straight poses at y = radius - thickness/2 and its mirror. |
| Track.StraightSides | plugins/track/src/lib.rs:157-172 | Top poses at 0..n and bottom poses at 2n..3n have angle 0 and y = +/-(radius - thickness/2). Bottom x mirrors top x. x runs from half_length - radius down to its negative in equal steps. |
| Track.BendAt | plugins/track/src/lib.rs:177-196 | The left-bend pose at n + k has angle pi*k/n. The right-bend pose at 3n + k has angle pi*k/n - pi. |
| Track.Bends | plugins/track/src/lib.rs:177-196 | Every left-bend angle is pi*i/n and every right-bend angle is pi*i/n - pi, for i in 1..n-1. |
| Track.BendAnglesBetweenStraights | plugins/track/src/lib.rs:178-192 | With pi > 0, left-bend angles lie strictly in (0, pi) and right-bend angles strictly in (-pi, 0). |
| Track.SideIn | plugins/track/src/lib.rs:65-78 | The tracker side (and, alike, the checkpoint side) of a collision is the first entity that has one, else the second, else none. |
| Track.TrackCheckpoint | plugins/track/src/lib.rs:63-85 | A collision without a tracker side or a checkpoint side changes nothing. Otherwise only that tracker changes: it gains the checkpoint and is never emptied. One lap is reported iff its set reaches the number of checkpoint entities. |
| Track.TrackCheckpoints | plugins/track/src/lib.rs:57-87 | Over a frame, trackers only gain checkpoint entities. Every reported lap belongs to a tracker that ends the frame at the lap threshold. There is at most one lap per collision. |
| Track.TrackCheckpointsStayWithin | plugins/track/src/lib.rs:57-87 | Trackers that hold only checkpoint entities keep doing so over a frame. |
| Track.TrackCheckpointLapIffAll | plugins/track/src/lib.rs:63-85 | With trackers holding only checkpoint entities, a collision reports a lap iff its tracker now holds every checkpoint. |
| Track.FullTrackerRepeatsLap | plugins/track/src/lib.rs:81-85 | Once a tracker holds every checkpoint, each further checkpoint collision reports another lap and changes no tracker. |
| Track.TrackCheckpointCorrected | plugins/track/src/lib.rs:63-85 | The collision step with the corrected tracker of the second finding: the same lap condition, and a reported lap starts the tracker over. |
| Track.TrackCheckpointsCorrected | plugins/track/src/lib.rs:57-87 | A frame with the corrected tracker: every reported lap belongs to a tracker, at most one lap per collision. |
| Track.CorrectedKeepsBelowLap | plugins/track/src/lib.rs:63-85 | With the corrected tracker, a collision keeps every tracker below a completed lap: trackers hold only checkpoint entities, and fewer than all of them. |
| Track.CorrectedFrameKeepsBelowLap | plugins/track/src/lib.rs:57-87 | With the corrected tracker, a whole frame keeps every tracker below a completed lap. |
| Track.InteriorFromTrack | plugins/track/src/lib.rs:210-217 | The interior's radius is the track radius less the thickness. Its half length is the track's. |
| Track.InteriorMeetsTopCheckpoints | plugins/track/src/lib.rs:157-165 | Every top checkpoint is centred on the asphalt band, half a thickness outside the interior's radius. Its sensor is 1.1 thicknesses tall (`Checkpoint::bundle`), so it reaches 0.05 of a thickness into the interior and the same distance past the outer radius. |
| LapTag.TagPair | plugins/laptag/src/lib.rs:33-44 | A transfer happens iff exactly one side holds the tag and the other may receive it. The first entity is tried as the holder first. |
| LapTag.TransferTag | plugins/laptag/src/lib.rs:37-46 | The holder loses the tag and the receiver gains it, so the number of holders is unchanged. Entities outside the pair keep their state. Without a transfer nothing changes. |
| LapTag.NoTransferCases | plugins/laptag/src/lib.rs:37-44 | Two holders, two non-holders, or a holder and a partner without `CanBeIt`: nothing changes. |
| LapTag.ResetLapOnTag | plugins/laptag/src/lib.rs:50-61 | Every changed entity with a tracker has it cleared. Every other tracker is untouched. |
| LapTag.TagCollision | plugins/laptag/src/lib.rs:26-61 | A transfer followed by a reset: exactly the trackers of racers whose tag changed are cleared. The holder count is kept. |
| LapTag.TagChangesOnlyColliders | plugins/laptag/src/lib.rs:45-46 | Only the two colliding racers can change tag state. |
| LapTag.ScoreLap | plugins/laptag/src/lib.rs:63-72 | A lap adds exactly 1 to the racer's score iff it holds the tag and has a tracker. No other score changes. |
| LapTag.ScoreCompletedLaps | plugins/laptag/src/lib.rs:63-72 | Each scored racer gains exactly its number of laps in the frame when it holds the tag and has a tracker, else nothing. |
| LapTag.ScoresNeverDecrease | plugins/laptag/src/lib.rs:63-72 | Scores never go down. |
| LapTag.TransferTagFrame | plugins/laptag/src/lib.rs:26-47 | A frame as written: every decision reads the tags as they stood at the start of the frame, and the commands apply afterwards. `CanBeIt` is unchanged. New holders come from `CanBeIt`. A racer in no collision keeps its tag state. |
| LapTag.TransferTagSequential | plugins/laptag/src/lib.rs:26-47 | The corrected frame, with the tags refreshed after each collision. It has the same guarantees: `CanBeIt` is unchanged, new holders come from `CanBeIt`, and a racer in no collision keeps its tag state. |
| LapTag.FrameDuplicatesTag | plugins/laptag/src/lib.rs:26-47 | With queries and commands as written, one holder touching two taggable racers in one frame leaves two holders. |
| LapTag.SequentialKeepsTagCount | plugins/laptag/src/lib.rs:26-47 | With the tags refreshed between collisions, a frame keeps the number of holders. |
| Resurfacer.TrackLastCheckpoint | plugins/resurfacer/src/lib.rs:37-59 | An unchanged or empty tracker leaves the index. Otherwise the index becomes the last iterated checkpoint's index. An untracked entity panics. |
| Resurfacer.LastCheckpointIsTracked | plugins/resurfacer/src/lib.rs:49-58 | For any iteration order of a tracker of known checkpoints: no panic. An empty tracker keeps the index. Otherwise the index is that of some checkpoint in the tracker. |
| Resurfacer.NextChunk | plugins/resurfacer/src/lib.rs:70-74 | The target is chunk last+1 when it is in range, else chunk 0. It is always valid on a non-empty track. An empty track panics. |
| Resurfacer.NextChunkIsRingSuccessor | plugins/resurfacer/src/lib.rs:71-74 | From a chunk of the ring, the target is its successor modulo the chunk count. |
| Resurfacer.DriveResurfacer | plugins/resurfacer/src/lib.rs:62-78 | A missing resurfacer entity panics, and so does a track without chunks. Otherwise the target chunk is valid and the index handed on is always last+1. |
| Resurfacer.DriveHeadsForCheckpoint | plugins/resurfacer/src/lib.rs:75-78 | With a true normalisation, the resurfacer moves at exactly `SPEED` (120) straight towards the next checkpoint, unless it already stands on it. |
| Resurfacer.RingSkipIsModulo | plugins/resurfacer/src/lib.rs:168-177 | Skipping k elements of the repeated chunk ring lands on chunk k mod n. |
| Resurfacer.SpawnResurfacer | plugins/resurfacer/src/lib.rs:166-177 | A new resurfacer has the default index and starts at chunk `STARTING_CHECKPOINT mod n`, with the default 25. |
| Resurfacer.OffsetWithinSlot | plugins/resurfacer/src/lib.rs:126-127 | A draw's offset along the checkpoint axis is at most 0.45 of the checkpoint width. |
| Resurfacer.PlacePegs | plugins/resurfacer/src/lib.rs:125-143 | The loop uses an odd number of draws and ends on the first loop draw not below `u32::MAX/3`. Every round uses two draws and places at most one peg. |
| Resurfacer.LoopStopsAtFirstHighDraw | plugins/resurfacer/src/lib.rs:125 | Every earlier loop draw was below `u32::MAX/3`. |
| Resurfacer.PegsKeepApart | plugins/resurfacer/src/lib.rs:121-138 | Every placed peg is at least `Peg::RADIUS` (20) from every earlier collider and from every other placed peg. |
| Resurfacer.PegsOnSlot | plugins/resurfacer/src/lib.rs:126-129 | Every placed peg lies on the checkpoint's axis within 0.45 of its width of the centre. |
| Resurfacer.PegsAreCandidates | plugins/resurfacer/src/lib.rs:125-142 | Every placed peg is the candidate of some round of the loop. |
| Resurfacer.CandidatesPlacedOrNear | plugins/resurfacer/src/lib.rs:125-142 | Every round's candidate is placed, or lies closer than `Peg::RADIUS` to a collider or a placed peg. A candidate clear of everything is placed. |
| Resurfacer.SpawnPegs | plugins/resurfacer/src/lib.rs:139-142 | Each placed position becomes a peg of the checkpoint, in order. The ids listed for the checkpoint are the consecutive ids from the first free one. |
| Resurfacer.SpawnedIdsAreFresh | plugins/resurfacer/src/lib.rs:139-142 | Spawning from an id above every existing peg id keeps all peg ids distinct. |
| Resurfacer.StillObstacles | plugins/resurfacer/src/lib.rs:145-150 | An old entry is despawned iff it is still an obstacle. |
| Resurfacer.ResurfaceOne | plugins/resurfacer/src/lib.rs:112-156 | One checkpoint: new pegs are appended for it with consecutive ids. Its list becomes exactly their ids, inserted if absent. Its old entries that are still obstacles are despawned. An unknown checkpoint panics. |
| Resurfacer.ResurfaceCheckpoints | plugins/resurfacer/src/lib.rs:112-157 | Every drained checkpoint gets a list and the others keep theirs. New pegs belong to drained checkpoints and have consecutive ids. Errors are exhaustion or an unknown checkpoint. |
| Resurfacer.ListsHoldNewPegs | plugins/resurfacer/src/lib.rs:144-155 | After the run, each drained checkpoint's list is exactly the ids of the pegs spawned for it, in spawn order. |
| Resurfacer.DespawnedAreOldObstacles | plugins/resurfacer/src/lib.rs:144-150 | An entity is despawned iff it was listed for a drained checkpoint and is still an obstacle. |
| Resurfacer.ResurfaceTrack | plugins/resurfacer/src/lib.rs:108-158 | Nothing happens unless the tracker changed and is non-empty. Otherwise the tracker is drained, so it is empty. Every drained checkpoint's list is exactly the ids of the pegs spawned for it, and other lists are kept. An entity is despawned iff it was listed for a drained checkpoint and is still an obstacle. |
| Resurfacer.ResurfacedIdsAreFresh | plugins/resurfacer/src/lib.rs:139-142 | A resurfacing run keeps peg entity ids distinct and below the next free id. |
| BotController.ComputeGoalPositions | plugins/bot-controller/src/lib.rs:36-57 | Every bot whose car can be read gets the zero state, overwritten or inserted. Unreadable bots keep their state. |
| BotController.GoalPositionsIdempotent | plugins/bot-controller/src/lib.rs:36-57 | Running the refresh twice is the same as once. |
| BotController.Steer | plugins/bot-controller/src/lib.rs:71-76 | Steering is +0.1 or -0.1, positive iff the draw is below `u32::MAX/2`. |
| BotController.DecideBotControls | plugins/bot-controller/src/lib.rs:60-78 | Every bot with a state and a stream drives forward and steers by its own first draw, which is consumed. Other streams are untouched. |
| BotController.TicksUseOneDrawEach | plugins/bot-controller/src/lib.rs:64-76 | Over k ticks each bot uses exactly the first k draws of its own stream, and no other stream changes. |
| GameLoop.MaxBy | src/game_loop.rs:64-67 | `max_by` on scores is `None` iff there are no racers. Otherwise it is one of the racers, with a score at least every other racer's. |
| GameLoop.MaxByIsLastMax | src/game_loop.rs:64-67 | `max_by` on scores returns the last racer with the highest score. It is `None` iff there are no racers. |
| GameLoop.LastMaxUnique | src/game_loop.rs:67 | That racer is uniquely determined. |
| GameLoop.GameResult | src/game_loop.rs:60-70 | A removed player means `Some(false)`. Otherwise the result is `Some` iff some score reaches 5, and it is the `is_player` of the last best racer. |
| GameLoop.NoRacersNoResult | src/game_loop.rs:63-68 | No racers and no removed player: no result. |
| GameLoop.TieGoesToLast | src/game_loop.rs:64-69 | A tie at the top goes to the later racer in query order. |
| GameLoop.RestartGame | src/game_loop.rs:32-53 | Nothing happens unless exactly one restart button exists and is pressed. A restart despawns every car and game-over UI entity. A world without exactly one track panics. |
| Scoreboard.ShouldRebuild | plugins/scoreboard/src/lib.rs:44-50 | The board is rebuilt iff there is exactly one board and some score changed or the board was just added. |
| Scoreboard.Insert | plugins/scoreboard/src/lib.rs:57 | One insertion step of the sort adds exactly the new entry. |
| Scoreboard.InsertKeepsSorted | plugins/scoreboard/src/lib.rs:57 | An insertion step keeps the entries in descending order. |
| Scoreboard.InsertIsStable | plugins/scoreboard/src/lib.rs:57 | An insertion step puts the new entry after the entries with its score. |
| Scoreboard.SortScores | plugins/scoreboard/src/lib.rs:57 | The stable descending sort, one insertion per entry in query order. It keeps the length and the multiset of entries. |
| Scoreboard.SortScoresSorted | plugins/scoreboard/src/lib.rs:56-57 | The sorted list has non-increasing scores. |
| Scoreboard.SortScoresPermutes | plugins/scoreboard/src/lib.rs:51-57 | The sorted list is a permutation of the queried (name, score) pairs. |
| Scoreboard.SortScoresStable | plugins/scoreboard/src/lib.rs:57 | Racers with equal scores keep their query order. |
| Scoreboard.NatToString | plugins/scoreboard/src/lib.rs:84 | A score's text is non-empty decimal digits with no leading zero. |
| Scoreboard.ParseNatToString | plugins/scoreboard/src/lib.rs:84 | Reading a score's text back gives the score. |
| Scoreboard.ScoreRows | plugins/scoreboard/src/lib.rs:74-91 | There is one row per entry in the given order, with the entry's name and text that reads back as its score. |
| Scoreboard.UpdateScoreboard | plugins/scoreboard/src/lib.rs:38-66 | Rows are built iff the guard holds, for the one board. Read back, the rows are a permutation of the racers' (name, score) pairs, highest score first, and racers with equal scores keep their query order. |
| Scoreboard.RowsReadBack | plugins/scoreboard/src/lib.rs:74-91 | Reading the rows back (name, parsed score) gives the entries they were built from. |
| CarController.LeafwingInputMap | plugins/controller/src/lib.rs:88-103 | Each controller's map has four bindings, with no action and no key bound twice. |
| CarController.InputMapBindsEachActionOnce | plugins/controller/src/lib.rs:88-103 | Each controller binds the four actions to four distinct keys, and each key triggers its own action. |
| CarController.ControllersUseDisjointKeys | plugins/controller/src/lib.rs:88-103 | The WASD and arrow maps share no key. |
| CarController.AddController | plugins/controller/src/lib.rs:32-42 | A car with a controller and no map gets its controller's map. Cars with a map keep it. |
| CarController.AddControllerIdempotent | plugins/controller/src/lib.rs:32-42 | A second run adds nothing. |
| CarController.ControlCommands | plugins/controller/src/lib.rs:48-71 | The last command for a car is always the steering write. |
| CarController.ControlsTakeEffect | plugins/controller/src/lib.rs:49-71 | Brake alone or with accelerate gives `Backward`, and accelerate alone gives `Forward`. Neither leaves the action as it was. Steering is always written. |
| CarController.SteeringCases | plugins/controller/src/lib.rs:61-67 | Steering is +1 with left only, -1 with right only, and 0 with both or neither. |
| CarController.HandleControls | plugins/controller/src/lib.rs:44-73 | Every car with an action state gets commands ending in a steering write. |
| DriveInput.CarInputMap | controller/src/lib.rs:15-24 | The drive input map has four bindings, with no action and no key bound twice. |
| DriveInput.CarInputMapIsArrowKeys | controller/src/lib.rs:15-24 | The map binds the four actions to four distinct arrow keys, readable in both directions. |
| DriveInput.CarInputFor | controller/src/lib.rs:30-49 | Each pedal marker is set iff its action is pressed. The turn is +18 with left only, -18 with right only, and 0 with both or neither. |
| DriveInput.BothPedalsBothMarkers | controller/src/lib.rs:31-37 | Both pedals set both markers in the same tick. |
| DriveInput.CarInputs | controller/src/lib.rs:26-51 | Every car with an action state gets its markers and a turn action. |
| Camera.FromCorners | plugins/camera/src/lib.rs:73-78 | The rectangle from two corners is well formed, contains both corners, and takes its bounds from them. |
| Camera.FromCornersSymmetric | plugins/camera/src/lib.rs:74-78 | The order of the corners does not matter. |
| Camera.TrackerRect | plugins/camera/src/lib.rs:74-78 | A tracker's bounds always have min <= max. |
| Camera.Clamp | plugins/camera/src/lib.rs:45-50 | `max(lo).min(hi)` is at most hi and at least lo when lo <= hi. It is the identity inside, and always one of v, lo, hi. |
| Camera.Target | plugins/camera/src/lib.rs:40-51 | The target has z = 0 and lies in well-formed bounds. |
| Camera.TargetInsideIsExact | plugins/camera/src/lib.rs:40-51 | A missing velocity acts as zero. A look-ahead point inside the bounds is the exact target. |
| Camera.TargetIdempotent | plugins/camera/src/lib.rs:44-51 | Clamping a clamped target changes nothing. |
| Camera.CameraTracking | plugins/camera/src/lib.rs:33-53 | Without exactly one tracker nothing happens. Otherwise a missing or duplicated rig panics. With one rig the camera position is always set, to the tracker's clamped look-ahead target, with z = 0 and inside well-formed bounds. |
| Camera.CameraFollowsTracker | plugins/camera/src/lib.rs:40-51 | A look-ahead point inside the bounds is exactly where the camera goes. A tracker standing still at the camera's new position would leave the camera where it is. |
| Camera.RectTrackerKeepsCameraInside | plugins/camera/src/lib.rs:33-78 | A tracker made by `CameraTracker::rect` keeps the camera inside its rectangle. |
| Slowmo.StartSlowmo | plugins/slowmo/src/lib.rs:23-35 | Starting sets speed 0.25 and a full 2 s timer, whether or not a timer was running. |
| Slowmo.SaturatingSub | plugins/slowmo/src/lib.rs:43 | The subtraction never goes below zero and is zero iff the delta covers the timer. |
| Slowmo.EaseInClock | plugins/slowmo/src/lib.rs:37-50 | A step without a timer does nothing. Otherwise the speed is 0.25 + 0.75 * easing(progress), and the timer is removed iff it reaches zero. A timer above 2 s would panic. |
| Slowmo.EaseKeepsValid | plugins/slowmo/src/lib.rs:28-49 | A timer in (0, 2 s] never panics, stays in range and only goes down. |
| Slowmo.ProgressInUnitRange | plugins/slowmo/src/lib.rs:44-45 | Progress lies in [0, 1]. |
| Slowmo.SpeedBetweenSlowAndFull | plugins/slowmo/src/lib.rs:44-46 | With an easing from [0, 1] into [0, 1], the speed lies between 0.25 and 1. |
| Slowmo.TimerRunsOut | plugins/slowmo/src/lib.rs:17-49 | Over a run of steps the timer holds exactly the time left, and it is gone once the steps cover it. |
| Slowmo.EaseRunIdle | plugins/slowmo/src/lib.rs:17 | Without a timer the ease step never runs. |

## Left out

- Rendering, audio, UI tree building and styling, car physics, and plugin wiring are not part of this model.
- The game-over UI is not modelled. `handle_gameover` also never inserts the `GameOver` resource in the code shown, so it fires again every tick once the game is over.
- `spawn_cars` (called by `restart_game`) and `src/main.rs` are not part of this model. `RestartGame` yields the despawned entities only.
- The PRNG behind `Entropy` is not modelled. Draws are an input sequence, and a finite sequence can run out, which the game's streams cannot.
- Trigonometry (`cos`, `sin`, the value of pi), `Vec2::normalize`, `Vec2::from_angle` and `simple_easing::expo_in` are parameters. Floats are exact reals, so f32 rounding is not modelled.
- The resurfacer reads the track through `Track::chunks`, `Checkpoint::from_chunk` and the checkpoint's index, position, angle and size. That API is not part of this model and arrives as parameters: chunk counts, a position function and `Slot`s.
- The iteration and drain order of a `CheckpointTracker`'s hash set is a parameter (`iter`, `order`).
- ECS scheduling is not modelled: system order, deferred `Commands` and change detection. `Changed<..>` flags are parameters, and deferred inserts take effect at once. The one place where deferral changes the outcome is the first finding below.
- Resurfacer.ResurfaceCheckpoints: pegs spawned for one checkpoint are not checked against pegs spawned for an earlier checkpoint in the same run. The game's peg spawns are deferred, so its collider query does not see them either.
- Resurfacer.DriveResurfacer: the index handed to `Checkpoint::from_chunk` is last+1 even when the chunk wraps to 0. The model keeps this as written.
- Resurfacer.DriveResurfacer: the `transform.look_at` turn towards the next checkpoint is not modelled, because rotations are outside the model. The velocity is stated through the `normalize` parameter, and its speed and heading only under `Normalizes` (DriveHeadsForCheckpoint).
- Resurfacer.ResurfaceTrack: models one resurfacer per call, with its own tracker and draws. The game loops over every resurfacer whose tracker changed, against one shared collider snapshot. The game spawns one resurfacer per track.
- Resurfacer.ResurfaceTrack: requires the drain order to list each tracked checkpoint once, as draining a hash set does.
- Resurfacer.SpawnResurfacer: on a track without chunks the game's ring iterator never yields. The model answers `None`.
- Track.Checkpoints: requires at least one subdivision, because n = 0 divides by zero in f32. Bend positions (cos/sin) are stated only through the parameters.
- LapTag.ScoreCompletedLaps: scores are unbounded naturals, and u32 overflow of `Score` is not modelled. The game ends at a score of 5.
- `usize` overflow of `last_checkpoint_index + 1` is not modelled.
- The slow-motion timer resource is removed at once in the model. In the game the removal is a deferred command.
- `CarControl` and `DriveInput` key maps are sequences of bindings. Leafwing's chords, gamepads and press timing are not modelled.

## Findings

| source | as written | input that shows it | evidently intended | confidence | as-written member | corrected member |
|---|---|---|---|---|---|---|
| plugins/laptag/src/lib.rs:26-47 | Every collision of a frame is decided against the same `TagIt` query, and the remove/insert commands take effect after the last one | "It" racer 1 starts collisions with taggable racers 2 and 3 in one frame: both get `TagIt`, so two racers are "it" | Exactly one transfer per holder, so the number of "it" racers is preserved | medium, not executed | LapTag.TransferTagFrame, LapTag.FrameDuplicatesTag | LapTag.TransferTagSequential, LapTag.SequentialKeepsTagCount |
| plugins/track/src/lib.rs:282-294 | `reach_checkpoint` never clears the tracker when it reports a lap | On a track with checkpoints A and B, reaching A, B, A reports two laps | The tracker starts over after a completed lap, so every lap needs a full round of checkpoints | medium, not executed | Track.RunLaps, Track.LapRepeatsWithoutReset, Track.FullTrackerRepeatsLap | Track.ReachCheckpointResetting, Track.TrackCheckpointCorrected, Track.LapsNeedFullRounds |
