/**
  The game camera: it follows the one camera tracker a little ahead of its
  motion, kept inside the tracker's rectangle.
 */
module Camera {
  import opened Base

  function Min(a: real, b: real): real { if a <= b then a else b }
  function Max(a: real, b: real): real { if a >= b then a else b }

  /** An axis-aligned rectangle (`Rect`). */
  datatype Rect = Rect(min: Vec2, max: Vec2)

  predicate WellFormed(r: Rect)
  {
    r.min.x <= r.max.x && r.min.y <= r.max.y
  }

  predicate Inside(r: Rect, p: Vec2)
  {
    r.min.x <= p.x <= r.max.x && r.min.y <= p.y <= r.max.y
  }

  /** `Rect::from_corners`: the rectangle spanned by two opposite corners,
      given in any order. */
  function FromCorners(a: Vec2, b: Vec2): (r: Rect)
    ensures WellFormed(r)
    ensures Inside(r, a) && Inside(r, b)
    ensures r.min.x in {a.x, b.x} && r.min.y in {a.y, b.y} && r.max.x in {a.x, b.x} && r.max.y in {a.y, b.y}
  {
    Rect(Vec2(Min(a.x, b.x), Min(a.y, b.y)), Vec2(Max(a.x, b.x), Max(a.y, b.y)))
  }

  /** The corners' order does not matter. */
  lemma FromCornersSymmetric(a: Vec2, b: Vec2)
    ensures FromCorners(a, b) == FromCorners(b, a)
  {
  }

  /** `CameraTracker::rect`: a tracker keeps its bounds as a rectangle. */
  datatype CameraTracker = CameraTracker(bounds: Rect)

  function TrackerRect(min: Vec2, max: Vec2): (t: CameraTracker)
    ensures WellFormed(t.bounds)
  {
    CameraTracker(FromCorners(min, max))
  }

  /** `v.max(lo).min(hi)`. */
  function Clamp(v: real, lo: real, hi: real): (r: real)
    ensures r <= hi
    ensures lo <= hi ==> lo <= r
    ensures lo <= v <= hi ==> r == v
    ensures r == v || r == lo || r == hi
  {
    Min(Max(v, lo), hi)
  }

  datatype Vec3 = Vec3(x: real, y: real, z: real)

  /** The camera target for a tracker at `translation` moving with
      `velocity` (zero when the tracker has no `LinearVelocity`). */
  function Target(bounds: Rect, translation: Vec2, velocity: Option<Vec2>): (p: Vec3)
    ensures p.z == 0.0
    ensures WellFormed(bounds) ==> Inside(bounds, Vec2(p.x, p.y))
  {
    var v := if velocity.Some? then velocity.value else Zero;
    var ahead := translation.Add(v);
    Vec3(Clamp(ahead.x, bounds.min.x, bounds.max.x), Clamp(ahead.y, bounds.min.y, bounds.max.y), 0.0)
  }

  /** A target that is already inside the bounds is taken as it is, and a
      missing velocity is the same as zero velocity. */
  lemma TargetInsideIsExact(bounds: Rect, translation: Vec2, velocity: Option<Vec2>)
    ensures Target(bounds, translation, None) == Target(bounds, translation, Some(Zero))
    ensures velocity.Some? && Inside(bounds, translation.Add(velocity.value)) ==>
              Target(bounds, translation, velocity) == Vec3(translation.x + velocity.value.x, translation.y + velocity.value.y, 0.0)
  {
  }

  /** Following a target from where it already is changes nothing. */
  lemma TargetIdempotent(bounds: Rect, translation: Vec2, velocity: Option<Vec2>)
    requires WellFormed(bounds)
    ensures var p := Target(bounds, translation, velocity);
            Target(bounds, Vec2(p.x, p.y), None) == p
  {
  }

  /** One tracker as the query yields it. */
  datatype Tracked = Tracked(tracker: CameraTracker, translation: Vec2, velocity: Option<Vec2>)

  /** `camera_tracking`: with exactly one tracker, the one camera rig's
      position becomes the target; otherwise nothing happens. A world
      without exactly one rig makes `single_mut` panic. */
  function CameraTracking(trackers: seq<Tracked>, rigs: nat): (r: Result<Option<Vec3>>)
    ensures |trackers| != 1 ==> r == Ok(None)
    ensures |trackers| == 1 ==> (r.Err? <==> rigs != 1)
    ensures |trackers| == 1 && rigs == 1 ==>
              r == Ok(Some(Target(trackers[0].tracker.bounds, trackers[0].translation, trackers[0].velocity)))
    ensures r.Ok? && r.value.Some? ==>
              |trackers| == 1 && r.value.value.z == 0.0
              && (WellFormed(trackers[0].tracker.bounds) ==>
                    Inside(trackers[0].tracker.bounds, Vec2(r.value.value.x, r.value.value.y)))
  {
    if |trackers| != 1 then Ok(None)
    else if rigs != 1 then Err(Panic("exactly one camera rig"))
    else
      var t := trackers[0];
      Ok(Some(Target(t.tracker.bounds, t.translation, t.velocity)))
  }

  /** With one tracker and one rig, the camera goes exactly to the point
      the tracker will reach one second ahead when that point is inside
      the bounds; a tracker standing still at the camera's new position
      would leave the camera where it is. */
  lemma CameraFollowsTracker(t: Tracked)
    ensures var ahead := t.translation.Add(if t.velocity.Some? then t.velocity.value else Zero);
            Inside(t.tracker.bounds, ahead) ==> CameraTracking([t], 1) == Ok(Some(Vec3(ahead.x, ahead.y, 0.0)))
    ensures WellFormed(t.tracker.bounds) ==>
              var p := CameraTracking([t], 1).value.value;
              CameraTracking([Tracked(t.tracker, Vec2(p.x, p.y), None)], 1) == Ok(Some(p))
  {
    TargetInsideIsExact(t.tracker.bounds, t.translation, t.velocity);
    TargetInsideIsExact(t.tracker.bounds, t.translation, Some(Zero));
    if WellFormed(t.tracker.bounds) {
      TargetIdempotent(t.tracker.bounds, t.translation, t.velocity);
    }
  }

  /** A tracker made by `CameraTracker::rect` always keeps the camera
      inside its rectangle. */
  lemma RectTrackerKeepsCameraInside(min: Vec2, max: Vec2, translation: Vec2, velocity: Option<Vec2>)
    ensures var r := CameraTracking([Tracked(TrackerRect(min, max), translation, velocity)], 1);
            r.Ok? && r.value.Some? && Inside(FromCorners(min, max), Vec2(r.value.value.x, r.value.value.y))
  {
  }
}
