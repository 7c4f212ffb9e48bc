/**
  The race track: checkpoint trackers and lap completion, the generator of
  checkpoint poses around the stadium-shaped track, the collision system
  that pairs trackers with checkpoints, and the track interior.
 */
module Track {
  import opened Base

  /** The set of checkpoints a racer has reached since its tracker was last
      cleared. The game stores it in a hash set, so order and multiplicity
      carry no meaning. */
  datatype CheckpointTracker = CheckpointTracker(checkpoints: set<Entity>)

  const NewTracker: CheckpointTracker := CheckpointTracker({})

  /** Event sent when the racer `racer` has reached enough checkpoints. */
  datatype LapComplete = LapComplete(racer: Entity)

  datatype Reached = Reached(tracker: CheckpointTracker, lap: Option<LapComplete>)

  /** Records `checkpoint` and reports a completed lap for `self` once the
      tracker holds at least `expectedTotal` checkpoints. */
  function ReachCheckpoint(t: CheckpointTracker, self: Entity, checkpoint: Entity, expectedTotal: nat): (r: Reached)
    ensures t.checkpoints <= r.tracker.checkpoints
    ensures checkpoint in r.tracker.checkpoints
    ensures r.tracker.checkpoints - t.checkpoints <= {checkpoint}
    ensures r.lap.Some? <==> |r.tracker.checkpoints| >= expectedTotal
    ensures r.lap.Some? ==> r.lap.value.racer == self
  {
    var next := CheckpointTracker(t.checkpoints + {checkpoint});
    if |next.checkpoints| >= expectedTotal then Reached(next, Some(LapComplete(self)))
    else Reached(next, None)
  }

  predicate Contains(t: CheckpointTracker, checkpoint: Entity)
  {
    checkpoint in t.checkpoints
  }

  function Clear(t: CheckpointTracker): (r: CheckpointTracker)
    ensures forall c :: !Contains(r, c)
  {
    NewTracker
  }

  /** Reaching a checkpoint that is already recorded changes nothing in the
      tracker. */
  lemma ReachRecordedIsIdempotent(t: CheckpointTracker, self: Entity, checkpoint: Entity, expectedTotal: nat)
    requires Contains(t, checkpoint)
    ensures ReachCheckpoint(t, self, checkpoint, expectedTotal).tracker == t
  {
  }

  lemma SubsetCardinality<T>(a: set<T>, b: set<T>)
    requires a <= b
    ensures |a| <= |b|
  {
    if a != {} {
      var x :| x in a;
      SubsetCardinality(a - {x}, b - {x});
    }
  }

  /** Once every checkpoint of a set of `expectedTotal` checkpoints has been
      reached, reaching the next one completes the lap. */
  lemma LapCompletesWhenAllReached(t: CheckpointTracker, self: Entity, checkpoint: Entity, all: set<Entity>)
    requires all <= t.checkpoints + {checkpoint}
    ensures ReachCheckpoint(t, self, checkpoint, |all|).lap == Some(LapComplete(self))
  {
    SubsetCardinality(all, t.checkpoints + {checkpoint});
  }

  /** A tracker operation: reaching a checkpoint or clearing the tracker. */
  datatype TrackerOp = Reach(checkpoint: Entity) | ClearAll

  function Apply(t: CheckpointTracker, op: TrackerOp): CheckpointTracker
  {
    match op
    case Reach(c) => ReachCheckpoint(t, 0, c, 0).tracker
    case ClearAll => Clear(t)
  }

  /** The tracker after running `ops` in order on a new tracker. */
  function Replay(ops: seq<TrackerOp>): CheckpointTracker
  {
    if |ops| == 0 then NewTracker else Apply(Replay(ops[..|ops| - 1]), ops[|ops| - 1])
  }

  /** `c` was reached by some operation after the last clear of `ops`. */
  predicate ReachedSinceClear(ops: seq<TrackerOp>, c: Entity)
  {
    exists i :: 0 <= i < |ops| && ops[i] == Reach(c) && forall j :: i < j < |ops| ==> ops[j] != ClearAll
  }

  /** `contains` answers true exactly for the checkpoints reached since the
      last `clear`, whatever else the tracker was asked to do. */
  lemma {:induction false} ContainsIffReachedSinceClear(ops: seq<TrackerOp>, c: Entity)
    ensures Contains(Replay(ops), c) <==> ReachedSinceClear(ops, c)
  {
    if |ops| > 0 {
      var init := ops[..|ops| - 1];
      var last := ops[|ops| - 1];
      ContainsIffReachedSinceClear(init, c);
      if last == ClearAll {
      } else if last == Reach(c) {
        assert ops[|ops| - 1] == Reach(c);
      } else {
        if ReachedSinceClear(ops, c) {
          var i :| 0 <= i < |ops| && ops[i] == Reach(c) && forall j :: i < j < |ops| ==> ops[j] != ClearAll;
          assert i < |ops| - 1;
          assert init[i] == Reach(c);
        }
        if ReachedSinceClear(init, c) {
          var i :| 0 <= i < |init| && init[i] == Reach(c) && forall j :: i < j < |init| ==> init[j] != ClearAll;
          assert ops[i] == Reach(c);
        }
      }
    }
  }

  // ---------------------------------------------------------------------
  // Laps over a run of checkpoints: the tracker as written, and one that
  // starts over after each completed lap.

  datatype Run = Run(tracker: CheckpointTracker, laps: nat)

  /** Reaches the checkpoints of `cps` in order, counting completed laps.
      The tracker is never emptied, as in the game. */
  function RunLaps(t: CheckpointTracker, self: Entity, cps: seq<Entity>, expectedTotal: nat): (r: Run)
    ensures t.checkpoints <= r.tracker.checkpoints
    decreases |cps|
  {
    if |cps| == 0 then Run(t, 0)
    else
      var step := ReachCheckpoint(t, self, cps[0], expectedTotal);
      var rest := RunLaps(step.tracker, self, cps[1..], expectedTotal);
      Run(rest.tracker, rest.laps + if step.lap.Some? then 1 else 0)
  }

  /** With two checkpoints on the track, reaching A, B and then A again
      reports two completed laps: after the first lap every further
      checkpoint collision completes another one. */
  lemma LapRepeatsWithoutReset()
    ensures RunLaps(NewTracker, 7, [1, 2, 1], 2).laps == 2
  {
    var s1 := ReachCheckpoint(NewTracker, 7, 1, 2);
    assert s1.tracker.checkpoints == {1};
    var s2 := ReachCheckpoint(s1.tracker, 7, 2, 2);
    assert s2.tracker.checkpoints == {1, 2};
    var s3 := ReachCheckpoint(s2.tracker, 7, 1, 2);
    assert s3.tracker.checkpoints == {1, 2};
    assert [1, 2, 1][1..] == [2, 1];
    assert [2, 1][1..] == [1];
    assert [1][1..] == [];
  }

  /** Reaching a checkpoint, then starting the tracker over when the lap is
      complete. */
  function ReachCheckpointResetting(t: CheckpointTracker, self: Entity, checkpoint: Entity, expectedTotal: nat): (r: Reached)
    ensures r.lap.Some? ==> r.tracker == NewTracker && r.lap.value.racer == self
    ensures r.lap.None? ==> r.tracker.checkpoints == t.checkpoints + {checkpoint}
    ensures r.lap.Some? <==> |t.checkpoints + {checkpoint}| >= expectedTotal
  {
    var step := ReachCheckpoint(t, self, checkpoint, expectedTotal);
    if step.lap.Some? then Reached(NewTracker, step.lap) else step
  }

  function RunLapsResetting(t: CheckpointTracker, self: Entity, cps: seq<Entity>, expectedTotal: nat): Run
    decreases |cps|
  {
    if |cps| == 0 then Run(t, 0)
    else
      var step := ReachCheckpointResetting(t, self, cps[0], expectedTotal);
      var rest := RunLapsResetting(step.tracker, self, cps[1..], expectedTotal);
      Run(rest.tracker, rest.laps + if step.lap.Some? then 1 else 0)
  }

  lemma {:induction false} ResettingLapBudget(t: CheckpointTracker, self: Entity, cps: seq<Entity>, expectedTotal: nat)
    ensures var r := RunLapsResetting(t, self, cps, expectedTotal);
            r.laps * expectedTotal + |r.tracker.checkpoints| <= |cps| + |t.checkpoints|
    decreases |cps|
  {
    if |cps| > 0 {
      var step := ReachCheckpointResetting(t, self, cps[0], expectedTotal);
      ResettingLapBudget(step.tracker, self, cps[1..], expectedTotal);
      assert |t.checkpoints + {cps[0]}| <= |t.checkpoints| + 1;
    }
  }

  /** With the tracker started over after each lap, every completed lap
      costs at least `expectedTotal` checkpoint collisions. */
  lemma LapsNeedFullRounds(self: Entity, cps: seq<Entity>, expectedTotal: nat)
    ensures RunLapsResetting(NewTracker, self, cps, expectedTotal).laps * expectedTotal <= |cps|
  {
    ResettingLapBudget(NewTracker, self, cps, expectedTotal);
  }

  // ---------------------------------------------------------------------
  // Track geometry.

  datatype Track = Track(halfLength: real, radius: real, thickness: real, subdivisions: nat)

  const DefaultTrack: Track := Track(600.0, 300.0, 220.0, 10)

  /** A checkpoint pose: centre position and rotation angle. */
  datatype Pose = Pose(position: Vec2, angle: real)

  /** The floating-point trigonometry the generator uses, left abstract:
      the value of pi and the cosine and sine functions. */
  datatype Trig = Trig(pi: real, cos: real -> real, sin: real -> real)

  /** Half the distance between the two bend centres. */
  function StraightHalf(track: Track): real
  {
    track.halfLength - track.radius
  }

  function Separation(track: Track): real
    requires track.subdivisions >= 1
  {
    StraightHalf(track) * 2.0 / track.subdivisions as real
  }

  function BendRadius(track: Track): real
  {
    (track.radius + track.thickness / 4.0) / 2.0
  }

  function StraightPose(track: Track, index: int, y: real): Pose
    requires track.subdivisions >= 1
  {
    Pose(Vec2(StraightHalf(track) - index as real * Separation(track), y), 0.0)
  }

  function TopSide(track: Track): seq<Pose>
    requires track.subdivisions >= 1
  {
    seq(track.subdivisions + 1, i => StraightPose(track, i, track.radius - track.thickness / 2.0))
  }

  function BottomSide(track: Track): seq<Pose>
    requires track.subdivisions >= 1
  {
    seq(track.subdivisions + 1, i => StraightPose(track, i, -track.radius + track.thickness / 2.0))
  }

  /** The bend checkpoint for `index` (1 <= index < n) on the bend centred at
      `cx`, with polar angle `theta`. */
  function BendPose(track: Track, trig: Trig, cx: real, theta: real): Pose
  {
    var c := BendRadius(track);
    Pose(Vec2(cx + c * trig.cos(theta), c * trig.sin(theta)), theta - trig.pi / 2.0)
  }

  /** `index` n-ths of a half turn. */
  function BendFraction(pi: real, index: int, n: nat): real
    requires n >= 1
  {
    pi * index as real / n as real
  }

  /** The left bend, polar angles pi/2 + pi*i/n for 1 <= i < n. */
  function LeftSide(track: Track, trig: Trig): seq<Pose>
    requires track.subdivisions >= 1
  {
    var n := track.subdivisions;
    seq(n - 1, k => BendPose(track, trig, -StraightHalf(track), trig.pi / 2.0 + BendFraction(trig.pi, k + 1, n)))
  }

  /** The right bend, polar angles -pi/2 + pi*i/n for 1 <= i < n. */
  function RightSide(track: Track, trig: Trig): seq<Pose>
    requires track.subdivisions >= 1
  {
    var n := track.subdivisions;
    seq(n - 1, k => BendPose(track, trig, StraightHalf(track), -trig.pi / 2.0 + BendFraction(trig.pi, k + 1, n)))
  }

  /** The checkpoint poses of the track, side by side: top, left bend,
      bottom, right bend. */
  function Checkpoints(track: Track, trig: Trig): (r: seq<Pose>)
    requires track.subdivisions >= 1
    ensures |r| == 4 * track.subdivisions
  {
    TopSide(track) + LeftSide(track, trig) + BottomSide(track) + RightSide(track, trig)
  }

  /** The straight sides: top checkpoints at indices 0..n, bottom ones at
      2n..3n, all unrotated, mirrored across the x axis, running from x = h
      down to x = -h in equal steps, where h is `StraightHalf`. */
  ghost predicate StraightLayout(track: Track, r: seq<Pose>)
    requires track.subdivisions >= 1 && |r| == 4 * track.subdivisions
  {
    var n := track.subdivisions;
    var h := StraightHalf(track);
    && (forall i :: 0 <= i <= n ==>
          r[i].angle == 0.0 && r[i].position.y == track.radius - track.thickness / 2.0)
    && (forall i :: 2 * n <= i <= 3 * n ==>
          r[i].angle == 0.0 && r[i].position.y == -(track.radius - track.thickness / 2.0)
          && r[i].position.x == r[i - 2 * n].position.x)
    && r[0].position.x == h && r[n].position.x == -h
    && (forall i :: 0 < i <= n ==> r[i - 1].position.x - r[i].position.x == 2.0 * h / n as real)
  }

  /** The bends: left checkpoints at indices n+1..2n-1 turned by pi*i/n,
      right ones at 3n+1..4n-1 turned by pi*i/n - pi. */
  ghost predicate BendLayout(track: Track, trig: Trig, r: seq<Pose>)
    requires track.subdivisions >= 1 && |r| == 4 * track.subdivisions
  {
    var n := track.subdivisions;
    && (forall i :: n < i < 2 * n ==> r[i].angle == BendFraction(trig.pi, i - n, n))
    && (forall i :: 3 * n < i < 4 * n ==> r[i].angle == BendFraction(trig.pi, i - 3 * n, n) - trig.pi)
  }

  lemma ConcatIndex<T>(a: seq<T>, b: seq<T>, c: seq<T>, d: seq<T>, i: int)
    requires 0 <= i < |a| + |b| + |c| + |d|
    ensures i < |a| ==> (a + b + c + d)[i] == a[i]
    ensures |a| <= i < |a| + |b| ==> (a + b + c + d)[i] == b[i - |a|]
    ensures |a| + |b| <= i < |a| + |b| + |c| ==> (a + b + c + d)[i] == c[i - |a| - |b|]
    ensures |a| + |b| + |c| <= i ==> (a + b + c + d)[i] == d[i - |a| - |b| - |c|]
  {
  }

  /** The pose at index `i` of the top side (and at `2n + i` on the bottom). */
  lemma StraightAt(track: Track, trig: Trig, i: int)
    requires track.subdivisions >= 1 && 0 <= i <= track.subdivisions
    ensures Checkpoints(track, trig)[i] == StraightPose(track, i, track.radius - track.thickness / 2.0)
    ensures Checkpoints(track, trig)[2 * track.subdivisions + i]
         == StraightPose(track, i, -track.radius + track.thickness / 2.0)
  {
    var n := track.subdivisions;
    ConcatIndex(TopSide(track), LeftSide(track, trig), BottomSide(track), RightSide(track, trig), i);
    ConcatIndex(TopSide(track), LeftSide(track, trig), BottomSide(track), RightSide(track, trig), 2 * n + i);
  }

  lemma TopStraight(track: Track, trig: Trig)
    requires track.subdivisions >= 1
    ensures forall i :: 0 <= i <= track.subdivisions ==>
              Checkpoints(track, trig)[i].angle == 0.0
              && Checkpoints(track, trig)[i].position.y == track.radius - track.thickness / 2.0
  {
    forall i | 0 <= i <= track.subdivisions
      ensures Checkpoints(track, trig)[i].angle == 0.0
      ensures Checkpoints(track, trig)[i].position.y == track.radius - track.thickness / 2.0
    {
      StraightAt(track, trig, i);
    }
  }

  lemma BottomStraight(track: Track, trig: Trig)
    requires track.subdivisions >= 1
    ensures var n := track.subdivisions;
            forall i :: 2 * n <= i <= 3 * n ==>
              Checkpoints(track, trig)[i].angle == 0.0
              && Checkpoints(track, trig)[i].position.y == -(track.radius - track.thickness / 2.0)
              && Checkpoints(track, trig)[i].position.x == Checkpoints(track, trig)[i - 2 * n].position.x
  {
    var n := track.subdivisions;
    forall i | 2 * n <= i <= 3 * n
      ensures Checkpoints(track, trig)[i].angle == 0.0
      ensures Checkpoints(track, trig)[i].position.y == -(track.radius - track.thickness / 2.0)
      ensures Checkpoints(track, trig)[i].position.x == Checkpoints(track, trig)[i - 2 * n].position.x
    {
      StraightAt(track, trig, i - 2 * n);
    }
  }

  lemma StraightEnds(track: Track, trig: Trig)
    requires track.subdivisions >= 1
    ensures Checkpoints(track, trig)[0].position.x == StraightHalf(track)
    ensures Checkpoints(track, trig)[track.subdivisions].position.x == -StraightHalf(track)
  {
    var n := track.subdivisions;
    var h := StraightHalf(track);
    StraightAt(track, trig, 0);
    StraightAt(track, trig, n);
    assert n as real * (h * 2.0 / n as real) == h * 2.0;
  }

  lemma StraightSteps(track: Track, trig: Trig)
    requires track.subdivisions >= 1
    ensures forall i :: 0 < i <= track.subdivisions ==>
              Checkpoints(track, trig)[i - 1].position.x - Checkpoints(track, trig)[i].position.x
              == 2.0 * StraightHalf(track) / track.subdivisions as real
  {
    forall i | 0 < i <= track.subdivisions
      ensures Checkpoints(track, trig)[i - 1].position.x - Checkpoints(track, trig)[i].position.x
              == 2.0 * StraightHalf(track) / track.subdivisions as real
    {
      StraightAt(track, trig, i - 1);
      StraightAt(track, trig, i);
    }
  }

  lemma StraightSides(track: Track, trig: Trig)
    requires track.subdivisions >= 1
    ensures StraightLayout(track, Checkpoints(track, trig))
  {
    TopStraight(track, trig);
    BottomStraight(track, trig);
    StraightEnds(track, trig);
    StraightSteps(track, trig);
  }

  /** The poses at index `k` of the left bend and of the right bend. */
  lemma BendAt(track: Track, trig: Trig, k: int)
    requires track.subdivisions >= 1 && 0 < k < track.subdivisions
    ensures Checkpoints(track, trig)[track.subdivisions + k].angle
         == BendFraction(trig.pi, k, track.subdivisions)
    ensures Checkpoints(track, trig)[3 * track.subdivisions + k].angle
         == BendFraction(trig.pi, k, track.subdivisions) - trig.pi
  {
    var n := track.subdivisions;
    var top, left, bottom, right := TopSide(track), LeftSide(track, trig), BottomSide(track), RightSide(track, trig);
    ConcatIndex(top, left, bottom, right, n + k);
    ConcatIndex(top, left, bottom, right, 3 * n + k);
    assert left[k - 1] == BendPose(track, trig, -StraightHalf(track), trig.pi / 2.0 + BendFraction(trig.pi, k, n));
    assert right[k - 1] == BendPose(track, trig, StraightHalf(track), -trig.pi / 2.0 + BendFraction(trig.pi, k, n));
  }

  lemma Bends(track: Track, trig: Trig)
    requires track.subdivisions >= 1
    ensures BendLayout(track, trig, Checkpoints(track, trig))
  {
    var n := track.subdivisions;
    forall i | n < i < 2 * n
      ensures Checkpoints(track, trig)[i].angle == BendFraction(trig.pi, i - n, n)
    {
      BendAt(track, trig, i - n);
      assert n + (i - n) == i;
    }
    forall i | 3 * n < i < 4 * n
      ensures Checkpoints(track, trig)[i].angle == BendFraction(trig.pi, i - 3 * n, n) - trig.pi
    {
      BendAt(track, trig, i - 3 * n);
      assert 3 * n + (i - 3 * n) == i;
    }
  }

  lemma FractionOfPi(pi: real, k: int, n: nat)
    requires pi > 0.0 && 0 < k < n
    ensures 0.0 < BendFraction(pi, k, n) < pi
  {
    assert k as real / n as real < 1.0;
    assert pi * k as real / n as real == pi * (k as real / n as real);
  }

  /** With a positive pi, every bend checkpoint is turned strictly between
      the straight sides: the left bend in (0, pi), the right in (-pi, 0). */
  lemma BendAnglesBetweenStraights(track: Track, trig: Trig)
    requires track.subdivisions >= 1 && trig.pi > 0.0
    ensures forall i :: track.subdivisions < i < 2 * track.subdivisions ==>
              0.0 < Checkpoints(track, trig)[i].angle < trig.pi
    ensures forall i :: 3 * track.subdivisions < i < 4 * track.subdivisions ==>
              -trig.pi < Checkpoints(track, trig)[i].angle < 0.0
  {
    var n := track.subdivisions;
    forall i | n < i < 2 * n
      ensures 0.0 < Checkpoints(track, trig)[i].angle < trig.pi
    {
      BendAt(track, trig, i - n);
      FractionOfPi(trig.pi, i - n, n);
    }
    forall i | 3 * n < i < 4 * n
      ensures -trig.pi < Checkpoints(track, trig)[i].angle < 0.0
    {
      BendAt(track, trig, i - 3 * n);
      FractionOfPi(trig.pi, i - 3 * n, n);
    }
  }

  // ---------------------------------------------------------------------
  // Pairing collisions with trackers and checkpoints.

  /** A collision start between two entities, in the physics engine's order. */
  datatype Collision = Collision(e1: Entity, e2: Entity)

  /** The side of the collision that belongs to `s`, the first side first:
      how `track_checkpoints` picks both the tracker and the checkpoint. */
  function SideIn(s: set<Entity>, c: Collision): (r: Option<Entity>)
    ensures r.None? <==> c.e1 !in s && c.e2 !in s
    ensures r.Some? ==> r.value in s && (r.value == c.e1 || (r.value == c.e2 && c.e1 !in s))
  {
    if c.e1 in s then Some(c.e1) else if c.e2 in s then Some(c.e2) else None
  }

  datatype Tracked = Tracked(trackers: map<Entity, CheckpointTracker>, laps: seq<LapComplete>)

  /** One collision event: a tracker touching a checkpoint records it, with
      the number of checkpoint entities as the lap threshold; any other
      collision is ignored. The tracker is never emptied here, as in the
      game. */
  function TrackCheckpoint(trackers: map<Entity, CheckpointTracker>, checkpoints: set<Entity>, c: Collision): (r: Tracked)
    ensures r.trackers.Keys == trackers.Keys
    ensures SideIn(trackers.Keys, c).None? || SideIn(checkpoints, c).None? ==> r == Tracked(trackers, [])
    ensures SideIn(trackers.Keys, c).Some? && SideIn(checkpoints, c).Some? ==>
              var te := SideIn(trackers.Keys, c).value;
              var cp := SideIn(checkpoints, c).value;
              && (forall e :: e in trackers && e != te ==> r.trackers[e] == trackers[e])
              && r.trackers[te].checkpoints == trackers[te].checkpoints + {cp}
              && (r.laps == [LapComplete(te)] <==> |r.trackers[te].checkpoints| >= |checkpoints|)
              && (r.laps == [] <==> |r.trackers[te].checkpoints| < |checkpoints|)
  {
    var side := SideIn(trackers.Keys, c);
    var point := SideIn(checkpoints, c);
    if side.None? || point.None? then Tracked(trackers, [])
    else
      var te := side.value;
      var step := ReachCheckpoint(trackers[te], te, point.value, |checkpoints|);
      Tracked(trackers[te := step.tracker], if step.lap.Some? then [step.lap.value] else [])
  }

  /** Every tracker holds checkpoint entities only. */
  predicate Within(trackers: map<Entity, CheckpointTracker>, checkpoints: set<Entity>)
  {
    forall e :: e in trackers ==> trackers[e].checkpoints <= checkpoints
  }

  /** All collision events of a frame, in order; the trackers are updated in
      place between events. */
  function TrackCheckpoints(trackers: map<Entity, CheckpointTracker>, checkpoints: set<Entity>, cs: seq<Collision>): (r: Tracked)
    ensures r.trackers.Keys == trackers.Keys
    ensures forall e :: e in trackers ==> trackers[e].checkpoints <= r.trackers[e].checkpoints
    ensures forall e :: e in trackers ==> r.trackers[e].checkpoints <= trackers[e].checkpoints + checkpoints
    ensures forall i :: 0 <= i < |r.laps| ==> r.laps[i].racer in trackers
    ensures forall i :: 0 <= i < |r.laps| ==> |r.trackers[r.laps[i].racer].checkpoints| >= |checkpoints|
    ensures |r.laps| <= |cs|
    decreases |cs|
  {
    if |cs| == 0 then Tracked(trackers, [])
    else
      var first := TrackCheckpoint(trackers, checkpoints, cs[0]);
      var rest := TrackCheckpoints(first.trackers, checkpoints, cs[1..]);
      if |first.laps| == 0 then rest
      else
        var te := first.laps[0].racer;
        SubsetCardinality(first.trackers[te].checkpoints, rest.trackers[te].checkpoints);
        Tracked(rest.trackers, first.laps + rest.laps)
  }

  /** Trackers that hold only checkpoint entities keep doing so over a
      frame. */
  lemma {:induction false} TrackCheckpointsStayWithin(trackers: map<Entity, CheckpointTracker>, checkpoints: set<Entity>, cs: seq<Collision>)
    requires Within(trackers, checkpoints)
    ensures Within(TrackCheckpoints(trackers, checkpoints, cs).trackers, checkpoints)
    decreases |cs|
  {
    if |cs| > 0 {
      var first := TrackCheckpoint(trackers, checkpoints, cs[0]);
      assert Within(first.trackers, checkpoints);
      TrackCheckpointsStayWithin(first.trackers, checkpoints, cs[1..]);
    }
  }

  /** With trackers holding checkpoint entities only, a collision reports a
      lap exactly when its tracker now holds every checkpoint. */
  lemma TrackCheckpointLapIffAll(trackers: map<Entity, CheckpointTracker>, checkpoints: set<Entity>, c: Collision)
    requires Within(trackers, checkpoints)
    ensures var r := TrackCheckpoint(trackers, checkpoints, c);
            SideIn(trackers.Keys, c).Some? && SideIn(checkpoints, c).Some? ==>
              (r.laps != [] <==> r.trackers[SideIn(trackers.Keys, c).value].checkpoints == checkpoints)
  {
    var r := TrackCheckpoint(trackers, checkpoints, c);
    if SideIn(trackers.Keys, c).Some? && SideIn(checkpoints, c).Some? {
      var held := r.trackers[SideIn(trackers.Keys, c).value].checkpoints;
      assert held <= checkpoints;
      if held != checkpoints {
        assert checkpoints - held != {};
        var x :| x in checkpoints - held;
        SubsetCardinality(held, checkpoints - {x});
      }
    }
  }

  /** Once a tracker holds every checkpoint, each further collision with a
      checkpoint reports another lap and leaves the tracker as it is. */
  lemma FullTrackerRepeatsLap(trackers: map<Entity, CheckpointTracker>, checkpoints: set<Entity>, c: Collision)
    requires Within(trackers, checkpoints)
    requires SideIn(trackers.Keys, c).Some? && SideIn(checkpoints, c).Some?
    requires trackers[SideIn(trackers.Keys, c).value].checkpoints == checkpoints
    ensures var te := SideIn(trackers.Keys, c).value;
            var r := TrackCheckpoint(trackers, checkpoints, c);
            r.laps == [LapComplete(te)] && r.trackers == trackers
  {
    var te := SideIn(trackers.Keys, c).value;
    var r := TrackCheckpoint(trackers, checkpoints, c);
    assert r.trackers[te] == trackers[te];
  }

  /** The collision system with the corrected tracker: a tracker that
      completes a lap starts over. */
  function TrackCheckpointCorrected(trackers: map<Entity, CheckpointTracker>, checkpoints: set<Entity>, c: Collision): (r: Tracked)
    ensures r.trackers.Keys == trackers.Keys
    ensures SideIn(trackers.Keys, c).None? || SideIn(checkpoints, c).None? ==> r == Tracked(trackers, [])
    ensures SideIn(trackers.Keys, c).Some? && SideIn(checkpoints, c).Some? ==>
              var te := SideIn(trackers.Keys, c).value;
              var cp := SideIn(checkpoints, c).value;
              var reached := trackers[te].checkpoints + {cp};
              && (forall e :: e in trackers && e != te ==> r.trackers[e] == trackers[e])
              && (r.laps == [LapComplete(te)] <==> |reached| >= |checkpoints|)
              && (r.laps == [] <==> |reached| < |checkpoints|)
              && (r.laps == [] ==> r.trackers[te].checkpoints == reached)
              && (r.laps != [] ==> r.trackers[te] == NewTracker)
  {
    var side := SideIn(trackers.Keys, c);
    var point := SideIn(checkpoints, c);
    if side.None? || point.None? then Tracked(trackers, [])
    else
      var te := side.value;
      var step := ReachCheckpointResetting(trackers[te], te, point.value, |checkpoints|);
      Tracked(trackers[te := step.tracker], if step.lap.Some? then [step.lap.value] else [])
  }

  /** Every tracker holds checkpoint entities only, and fewer than all of
      them: no tracker is sitting on a completed lap. */
  predicate BelowLap(trackers: map<Entity, CheckpointTracker>, checkpoints: set<Entity>)
  {
    forall e :: e in trackers ==>
      trackers[e].checkpoints <= checkpoints && |trackers[e].checkpoints| < |checkpoints|
  }

  /** A frame of collisions with the corrected tracker. */
  function TrackCheckpointsCorrected(trackers: map<Entity, CheckpointTracker>, checkpoints: set<Entity>, cs: seq<Collision>): (r: Tracked)
    ensures r.trackers.Keys == trackers.Keys
    ensures forall i :: 0 <= i < |r.laps| ==> r.laps[i].racer in trackers
    ensures |r.laps| <= |cs|
    decreases |cs|
  {
    if |cs| == 0 then Tracked(trackers, [])
    else
      var first := TrackCheckpointCorrected(trackers, checkpoints, cs[0]);
      var rest := TrackCheckpointsCorrected(first.trackers, checkpoints, cs[1..]);
      Tracked(rest.trackers, first.laps + rest.laps)
  }

  /** With the corrected tracker a collision keeps every tracker below a
      completed lap: a tracker that reaches the last checkpoint reports the
      lap and starts over. */
  lemma CorrectedKeepsBelowLap(trackers: map<Entity, CheckpointTracker>, checkpoints: set<Entity>, c: Collision)
    requires BelowLap(trackers, checkpoints)
    ensures BelowLap(TrackCheckpointCorrected(trackers, checkpoints, c).trackers, checkpoints)
  {
    var side := SideIn(trackers.Keys, c);
    var point := SideIn(checkpoints, c);
    if side.Some? && point.Some? {
      var te := side.value;
      SubsetCardinality(trackers[te].checkpoints + {point.value}, checkpoints);
    }
  }

  /** With the corrected tracker, a whole frame keeps the trackers below a
      completed lap. */
  lemma {:induction false} CorrectedFrameKeepsBelowLap(trackers: map<Entity, CheckpointTracker>, checkpoints: set<Entity>, cs: seq<Collision>)
    requires BelowLap(trackers, checkpoints)
    ensures BelowLap(TrackCheckpointsCorrected(trackers, checkpoints, cs).trackers, checkpoints)
    decreases |cs|
  {
    if |cs| > 0 {
      CorrectedKeepsBelowLap(trackers, checkpoints, cs[0]);
      CorrectedFrameKeepsBelowLap(TrackCheckpointCorrected(trackers, checkpoints, cs[0]).trackers, checkpoints, cs[1..]);
    }
  }

  // ---------------------------------------------------------------------
  // The track interior: the grass capsule inside the asphalt.

  datatype TrackInterior = TrackInterior(radius: real, halfLength: real)

  /** The interior is the track shrunk by its asphalt thickness around the
      same straights. */
  function InteriorFromTrack(track: Track): (r: TrackInterior)
    ensures r.radius + track.thickness == track.radius
    ensures r.halfLength == track.halfLength
  {
    TrackInterior(track.radius - track.thickness, track.halfLength)
  }

  /** `Checkpoint::bundle`: a checkpoint's sensor rectangle is 1.1 asphalt
      thicknesses tall, across the track. */
  function SensorHeight(thickness: real): real
  {
    thickness * 1.1
  }

  /** Every top checkpoint is centred on the asphalt band: its centre lies
      half a thickness outside the interior's radius. Its sensor, 1.1
      thicknesses tall, overhangs the band by 0.05 of a thickness on both
      sides: into the interior and past the track's outer radius. */
  lemma InteriorMeetsTopCheckpoints(track: Track, trig: Trig)
    requires track.subdivisions >= 1
    ensures forall i :: 0 <= i <= track.subdivisions ==>
              Checkpoints(track, trig)[i].position.y - track.thickness / 2.0 == InteriorFromTrack(track).radius
    ensures forall i :: 0 <= i <= track.subdivisions ==>
              && Checkpoints(track, trig)[i].position.y - SensorHeight(track.thickness) / 2.0
                   == InteriorFromTrack(track).radius - track.thickness * 0.05
              && Checkpoints(track, trig)[i].position.y + SensorHeight(track.thickness) / 2.0
                   == track.radius + track.thickness * 0.05
  {
    StraightSides(track, trig);
  }
}
