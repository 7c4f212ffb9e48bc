/**
  The track resurfacer: a kinematic body that drives from checkpoint to
  checkpoint around the track and, at every checkpoint it passes, replaces
  that checkpoint's obstacles with freshly placed pegs.

  The resurfacer reads the track through an API that is not part of this
  model (`Track::chunks`, `Checkpoint::from_chunk` and the checkpoint's
  index, position, angle and size); those arrive here as plain parameters.
 */
module Resurfacer {
  import opened Base

  /** Ring index the resurfacer starts from. */
  const STARTING_CHECKPOINT: nat := 25
  /** Speed of the resurfacer, in world units per second. */
  const SPEED: real := 120.0
  /** Radius of a peg's collider; no peg is placed closer than this to
      another collider. */
  const PEG_RADIUS: real := 20.0
  /** The placement loop keeps going while a draw is below this bound
      (`u32::MAX / 3`). */
  const CONTINUE_BELOW: nat := U32_MAX / 3

  datatype Resurfacer = Resurfacer(lastCheckpointIndex: nat)

  const DefaultResurfacer: Resurfacer := Resurfacer(STARTING_CHECKPOINT)

  // ---------------------------------------------------------------------
  // Following the checkpoints.

  /** After the resurfacer's tracker changed, remembers the ring index of
      the tracker's last checkpoint in iteration order `iter` (a hash-set
      order the game does not fix). An untracked checkpoint entity is the
      game's `expect` failing. */
  function TrackLastCheckpoint(r: Resurfacer, changed: bool, iter: seq<Entity>, indices: map<Entity, nat>): (out: Result<Resurfacer>)
    ensures !changed || |iter| == 0 ==> out == Ok(r)
    ensures out.Err? <==> changed && |iter| > 0 && iter[|iter| - 1] !in indices
    ensures out.Ok? && changed && |iter| > 0 ==> out.value.lastCheckpointIndex == indices[iter[|iter| - 1]]
  {
    if !changed || |iter| == 0 then Ok(r)
    else
      var last := iter[|iter| - 1];
      if last in indices then Ok(Resurfacer(indices[last]))
      else Err(Panic("tracker to track valid Checkpoint entities"))
  }

  /** Whatever order the tracker's set is iterated in, a non-empty tracker of
      known checkpoints leaves the index of one of them, and an empty one
      leaves the index as it was. */
  lemma LastCheckpointIsTracked(r: Resurfacer, iter: seq<Entity>, tracker: set<Entity>, indices: map<Entity, nat>)
    requires forall e :: e in tracker <==> e in iter
    requires tracker <= indices.Keys
    ensures var out := TrackLastCheckpoint(r, true, iter, indices);
            && out.Ok?
            && (tracker == {} ==> out.value == r)
            && (tracker != {} ==> exists c :: c in tracker && out.value.lastCheckpointIndex == indices[c])
  {
    assert |iter| > 0 ==> iter[0] in tracker;
    if tracker != {} {
      var c :| c in tracker;
      assert c in iter;
      assert iter[|iter| - 1] in tracker;
    }
  }

  /** The chunk the resurfacer heads for: the one after the last reached
      checkpoint, or the first chunk past the end of the track. A track
      without chunks is the game's `expect` failing. */
  function NextChunk(last: nat, chunkCount: nat): (r: Result<nat>)
    ensures r.Ok? <==> chunkCount > 0
    ensures r.Ok? ==> r.value < chunkCount
    ensures r.Ok? ==> (r.value == last + 1 <==> last + 1 < chunkCount)
    ensures r.Ok? && last + 1 >= chunkCount ==> r.value == 0
  {
    var index := last + 1;
    if index < chunkCount then Ok(index)
    else if chunkCount > 0 then Ok(0)
    else Err(Panic("Track to have chunks"))
  }

  /** Starting from a chunk of the ring, the next chunk is its successor
      modulo the number of chunks. */
  lemma NextChunkIsRingSuccessor(last: nat, chunkCount: nat)
    requires last < chunkCount
    ensures NextChunk(last, chunkCount) == Ok((last + 1) % chunkCount)
  {
  }

  /** What `drive_resurfacer` computes: the chunk it heads for, the index it
      hands to `Checkpoint::from_chunk` with it, and the new velocity. */
  datatype Drive = Drive(chunk: nat, index: nat, velocity: Vec2)

  /** `found` is the lookup of the track's `TrackResurfacer` entity among
      the resurfacers, `None` being the game's `expect` failing;
      `position(chunk, index)` stands for `Checkpoint::from_chunk(..).position`
      and `normalize` for the vector normalisation, both outside the model. */
  function DriveResurfacer(found: Option<Resurfacer>, chunkCount: nat, translation: Vec2,
                           position: (nat, nat) -> Vec2, normalize: Vec2 -> Vec2): (out: Result<Drive>)
    ensures out.Ok? <==> found.Some? && chunkCount > 0
    ensures found.None? ==> out == Err(Panic("TrackResurfacer to be a valid Resurfacer entity"))
    ensures found.Some? && chunkCount == 0 ==> out == Err(Panic("Track to have chunks"))
    ensures out.Ok? ==> out.value.chunk < chunkCount && out.value.index == found.value.lastCheckpointIndex + 1
    ensures out.Ok? ==>
              out.value.velocity == normalize(position(out.value.chunk, out.value.index).Sub(translation)).Scale(SPEED)
  {
    if found.None? then Err(Panic("TrackResurfacer to be a valid Resurfacer entity"))
    else
      match NextChunk(found.value.lastCheckpointIndex, chunkCount)
      case Err(e) => Err(e)
      case Ok(chunk) =>
        var index := found.value.lastCheckpointIndex + 1;
        Ok(Drive(chunk, index, normalize(position(chunk, index).Sub(translation)).Scale(SPEED)))
  }

  function Dot(a: Vec2, b: Vec2): real { a.x * b.x + a.y * b.y }

  function Cross(a: Vec2, b: Vec2): real { a.x * b.y - a.y * b.x }

  /** `normalize` yields, for a non-zero vector, the unit vector pointing the
      same way: of length one, parallel to it and not opposite. */
  ghost predicate Normalizes(normalize: Vec2 -> Vec2)
  {
    forall v :: v != Zero ==>
      var u := normalize(v);
      Dot(u, u) == 1.0 && Cross(u, v) == 0.0 && Dot(u, v) > 0.0
  }

  /** With a true normalisation, the resurfacer moves at exactly `SPEED`
      straight towards the next checkpoint, unless it already stands on it. */
  lemma DriveHeadsForCheckpoint(found: Option<Resurfacer>, chunkCount: nat, translation: Vec2,
                                position: (nat, nat) -> Vec2, normalize: Vec2 -> Vec2)
    requires Normalizes(normalize)
    ensures var out := DriveResurfacer(found, chunkCount, translation, position, normalize);
            out.Ok? && position(out.value.chunk, out.value.index) != translation ==>
              var toward := position(out.value.chunk, out.value.index).Sub(translation);
              && Dot(out.value.velocity, out.value.velocity) == SPEED * SPEED
              && Cross(out.value.velocity, toward) == 0.0
              && Dot(out.value.velocity, toward) > 0.0
  {
    var out := DriveResurfacer(found, chunkCount, translation, position, normalize);
    if out.Ok? && position(out.value.chunk, out.value.index) != translation {
      var toward := position(out.value.chunk, out.value.index).Sub(translation);
      assert toward != Zero;
      var u := normalize(toward);
      assert Dot(u, u) == 1.0 && Cross(u, toward) == 0.0 && Dot(u, toward) > 0.0;
      var v := out.value.velocity;
      assert v == u.Scale(SPEED);
      assert Dot(v, v) == SPEED * SPEED * Dot(u, u);
      assert Cross(v, toward) == SPEED * Cross(u, toward);
      assert Dot(v, toward) == SPEED * Dot(u, toward);
    }
  }

  // ---------------------------------------------------------------------
  // Where the resurfacer starts.

  /** One step along the ring of `n` chunks. */
  function RingStep(pos: nat, n: nat): nat
    requires pos < n
  {
    if pos + 1 == n then 0 else pos + 1
  }

  /** The chunk reached by skipping `k` elements of the endlessly repeated
      chunk sequence, one element at a time. */
  function RingSkip(n: nat, k: nat): (r: nat)
    requires n > 0
    ensures r < n
  {
    if k == 0 then 0 else RingStep(RingSkip(n, k - 1), n)
  }

  lemma NegativeMultiple(d: int, n: int)
    requires n > 0
    ensures d < 0 ==> d * n <= -n
  {
    if d < 0 {
      var m := -(d + 1);
      assert m >= 0;
      NonnegativeProduct(m, n);
      assert d * n == -n - m * n;
    }
  }

  lemma {:induction false} NonnegativeProduct(m: nat, n: nat)
    ensures m * n >= 0
  {
    if m > 0 {
      NonnegativeProduct(m - 1, n);
      assert m * n == (m - 1) * n + n;
    }
  }

  /** Quotient and remainder are unique. */
  lemma ModUnique(a: int, n: int, q: int, r: int)
    requires n > 0 && 0 <= r < n && a == q * n + r
    ensures a % n == r
  {
    var q0 := a / n;
    var r0 := a % n;
    assert a == q0 * n + r0;
    assert (q - q0) * n == r0 - r;
    assert (q0 - q) * n == r - r0;
    NegativeMultiple(q - q0, n);
    NegativeMultiple(q0 - q, n);
  }

  lemma ModSucc(a: nat, n: nat)
    requires n > 0
    ensures (a + 1) % n == RingStep(a % n, n)
  {
    var q := a / n;
    var r := a % n;
    assert a == q * n + r;
    if r + 1 == n {
      assert a + 1 == (q + 1) * n + 0;
      ModUnique(a + 1, n, q + 1, 0);
    } else {
      ModUnique(a + 1, n, q, r + 1);
    }
  }

  /** Skipping `k` elements of the repeated ring one at a time lands on
      element `k mod n`. */
  lemma {:induction false} RingSkipIsModulo(n: nat, k: nat)
    requires n > 0
    ensures RingSkip(n, k) == k % n
  {
    if k > 0 {
      RingSkipIsModulo(n, k - 1);
      ModSucc(k - 1, n);
    }
  }

  /** A new resurfacer keeps the default index and is placed at the chunk
      reached by skipping that many ring elements. On a track without chunks
      the game's ring iterator never yields; the model answers `None`. */
  datatype Spawned = Spawned(resurfacer: Resurfacer, startChunk: nat)

  function SpawnResurfacer(chunkCount: nat): (r: Option<Spawned>)
    ensures r.Some? <==> chunkCount > 0
    ensures r.Some? ==> r.value.resurfacer == DefaultResurfacer
    ensures r.Some? ==> r.value.startChunk == STARTING_CHECKPOINT % chunkCount
  {
    if chunkCount == 0 then None
    else
      RingSkipIsModulo(chunkCount, STARTING_CHECKPOINT);
      Some(Spawned(DefaultResurfacer, RingSkip(chunkCount, STARTING_CHECKPOINT)))
  }

  // ---------------------------------------------------------------------
  // Placing pegs at one checkpoint.

  /** A checkpoint as the placement loop sees it: centre, unit axis
      (`Vec2::from_angle(angle)`, computed outside the model) and width. */
  datatype Slot = Slot(position: Vec2, axis: Vec2, width: real)

  /** Signed distance along the axis for a draw: the draw as a fraction of
      `u32::MAX`, centred, scaled to 90% of the width. */
  function Offset(width: real, draw: U32): real
  {
    (draw as real / U32_MAX as real - 0.5) * width * 0.9
  }

  lemma MulNonneg(x: real, y: real)
    requires x >= 0.0 && y >= 0.0
    ensures x * y >= 0.0
  {
  }

  lemma HalfBoundedProduct(a: real, w: real)
    requires -0.5 <= a <= 0.5
    ensures Abs(a * w) <= 0.5 * Abs(w)
  {
    if w >= 0.0 {
      MulNonneg(0.5 - a, w);
      MulNonneg(0.5 + a, w);
      assert (0.5 - a) * w == 0.5 * w - a * w;
      assert (0.5 + a) * w == 0.5 * w + a * w;
    } else {
      MulNonneg(0.5 - a, -w);
      MulNonneg(0.5 + a, -w);
      assert (0.5 - a) * -w == a * w - 0.5 * w;
      assert (0.5 + a) * -w == -0.5 * w - a * w;
    }
  }

  lemma OffsetWithinSlot(width: real, draw: U32)
    ensures Abs(Offset(width, draw)) <= 0.45 * Abs(width)
  {
    var f := draw as real / U32_MAX as real;
    assert 0.0 <= f <= 1.0;
    HalfBoundedProduct(f - 0.5, width);
    assert Offset(width, draw) == ((f - 0.5) * width) * 0.9;
  }

  function Candidate(slot: Slot, draw: U32): Vec2
  {
    slot.position.Add(slot.axis.Scale(Offset(slot.width, draw)))
  }

  /** `p` lies on the slot's axis within 45% of its width of the centre. */
  ghost predicate OnSlot(slot: Slot, p: Vec2)
  {
    exists w: real :: Abs(w) <= 0.45 * Abs(slot.width) && p == slot.position.Add(slot.axis.Scale(w))
  }

  /** No position of `positions` lies closer than a peg radius to `p`. */
  predicate FarFromAll(positions: seq<Vec2>, p: Vec2)
  {
    forall i :: 0 <= i < |positions| ==> SquaredDistance(positions[i], p) >= PEG_RADIUS * PEG_RADIUS
  }

  ghost predicate PairwiseApart(pegs: seq<Vec2>)
  {
    forall i, j :: 0 <= i < j < |pegs| ==> SquaredDistance(pegs[i], pegs[j]) >= PEG_RADIUS * PEG_RADIUS
  }

  /** The pegs placed at one checkpoint and the number of draws used. */
  datatype Placement = Placement(pegs: seq<Vec2>, used: nat)

  /** The placement loop: a draw at or above `CONTINUE_BELOW` ends it;
      otherwise a second draw picks a candidate on the checkpoint's axis,
      kept only when it is at least a peg radius from every collider and
      every peg placed so far. A rejected candidate still uses its two
      draws. */
  function PlacePegs(slot: Slot, colliders: seq<Vec2>, draws: seq<U32>): (r: Result<Placement>)
    ensures r.Err? ==> r.error == Exhausted
    ensures r.Ok? ==> 0 < r.value.used <= |draws| && r.value.used % 2 == 1
    ensures r.Ok? ==> draws[r.value.used - 1] >= CONTINUE_BELOW
    ensures r.Ok? ==> 2 * |r.value.pegs| < r.value.used
    decreases |draws|
  {
    if |draws| == 0 then Err(Exhausted)
    else if draws[0] >= CONTINUE_BELOW then Ok(Placement([], 1))
    else if |draws| == 1 then Err(Exhausted)
    else
      var p := Candidate(slot, draws[1]);
      var far := FarFromAll(colliders, p);
      var rest := PlacePegs(slot, if far then colliders + [p] else colliders, draws[2..]);
      if rest.Err? then rest
      else
        assert draws[2..][rest.value.used - 1] == draws[rest.value.used + 1];
        Ok(Placement((if far then [p] else []) + rest.value.pegs, rest.value.used + 2))
  }

  /** The loop runs until the first draw in a "continue" position that is
      not below `CONTINUE_BELOW`: every earlier such draw was below it. */
  lemma {:induction false} LoopStopsAtFirstHighDraw(slot: Slot, colliders: seq<Vec2>, draws: seq<U32>)
    ensures var r := PlacePegs(slot, colliders, draws);
            r.Ok? ==> forall k :: 0 <= k < r.value.used - 1 && k % 2 == 0 ==> draws[k] < CONTINUE_BELOW
    decreases |draws|
  {
    if |draws| >= 2 && draws[0] < CONTINUE_BELOW {
      var p := Candidate(slot, draws[1]);
      var cs := if FarFromAll(colliders, p) then colliders + [p] else colliders;
      LoopStopsAtFirstHighDraw(slot, cs, draws[2..]);
      var r := PlacePegs(slot, colliders, draws);
      if r.Ok? {
        forall k | 2 <= k < r.value.used - 1 && k % 2 == 0
          ensures draws[k] < CONTINUE_BELOW
        {
          assert draws[k] == draws[2..][k - 2];
        }
      }
    }
  }

  /** Every placed peg keeps a peg radius from every collider that was
      there before and from every peg placed before it. */
  lemma {:induction false} PegsKeepApart(slot: Slot, colliders: seq<Vec2>, draws: seq<U32>)
    ensures var r := PlacePegs(slot, colliders, draws);
            r.Ok? ==> (forall i :: 0 <= i < |r.value.pegs| ==> FarFromAll(colliders, r.value.pegs[i]))
                      && PairwiseApart(r.value.pegs)
    decreases |draws|
  {
    if |draws| >= 2 && draws[0] < CONTINUE_BELOW {
      var p := Candidate(slot, draws[1]);
      if FarFromAll(colliders, p) {
        PegsKeepApart(slot, colliders + [p], draws[2..]);
        var rest := PlacePegs(slot, colliders + [p], draws[2..]);
        if rest.Ok? {
          FarFromExtended(colliders, p, rest.value.pegs);
        }
      } else {
        PegsKeepApart(slot, colliders, draws[2..]);
      }
    }
  }

  /** Every placed peg lies on the checkpoint's axis, within 45% of the
      checkpoint's width of its centre. */
  lemma {:induction false} PegsOnSlot(slot: Slot, colliders: seq<Vec2>, draws: seq<U32>)
    ensures var r := PlacePegs(slot, colliders, draws);
            r.Ok? ==> forall i :: 0 <= i < |r.value.pegs| ==> OnSlot(slot, r.value.pegs[i])
    decreases |draws|
  {
    if |draws| >= 2 && draws[0] < CONTINUE_BELOW {
      var p := Candidate(slot, draws[1]);
      var cs := if FarFromAll(colliders, p) then colliders + [p] else colliders;
      PegsOnSlot(slot, cs, draws[2..]);
      CandidateOnSlot(slot, draws[1]);
      var r := PlacePegs(slot, colliders, draws);
      if r.Ok? {
        PlacePegsStep(slot, colliders, draws);
        OnSlotPrepend(slot, p, FarFromAll(colliders, p), PlacePegs(slot, cs, draws[2..]).value.pegs);
      }
    }
  }

  /** Every placed peg is the candidate of some round of the loop. */
  lemma {:induction false} PegsAreCandidates(slot: Slot, colliders: seq<Vec2>, draws: seq<U32>)
    ensures var r := PlacePegs(slot, colliders, draws);
            r.Ok? ==> forall i :: 0 <= i < |r.value.pegs| ==>
              exists j :: 0 < j < r.value.used - 1 && j % 2 == 1 && r.value.pegs[i] == Candidate(slot, draws[j])
    decreases |draws|
  {
    var r := PlacePegs(slot, colliders, draws);
    if r.Ok? && |draws| >= 2 && draws[0] < CONTINUE_BELOW {
      var p := Candidate(slot, draws[1]);
      var far := FarFromAll(colliders, p);
      var cs := if far then colliders + [p] else colliders;
      var rest := PlacePegs(slot, cs, draws[2..]);
      PlacePegsStep(slot, colliders, draws);
      PegsAreCandidates(slot, cs, draws[2..]);
      var pegs := r.value.pegs;
      forall i | 0 <= i < |pegs|
        ensures exists j :: 0 < j < r.value.used - 1 && j % 2 == 1 && pegs[i] == Candidate(slot, draws[j])
      {
        if far && i == 0 {
          assert pegs[0] == Candidate(slot, draws[1]);
        } else {
          var i' := if far then i - 1 else i;
          assert pegs[i] == rest.value.pegs[i'];
          var j' :| 0 < j' < rest.value.used - 1 && j' % 2 == 1 && rest.value.pegs[i'] == Candidate(slot, draws[2..][j']);
          assert draws[2..][j'] == draws[j' + 2];
          assert pegs[i] == Candidate(slot, draws[j' + 2]);
        }
      }
    }
  }

  /** No candidate is dropped without cause: each round's candidate was
      placed, or lies closer than a peg radius to a collider or a placed
      peg. In particular a candidate clear of everything is placed. */
  lemma {:induction false} CandidatesPlacedOrNear(slot: Slot, colliders: seq<Vec2>, draws: seq<U32>)
    ensures var r := PlacePegs(slot, colliders, draws);
            r.Ok? ==> forall j :: 0 < j < r.value.used - 1 && j % 2 == 1 ==>
              Candidate(slot, draws[j]) in r.value.pegs || !FarFromAll(colliders + r.value.pegs, Candidate(slot, draws[j]))
    decreases |draws|
  {
    var r := PlacePegs(slot, colliders, draws);
    if r.Ok? && |draws| >= 2 && draws[0] < CONTINUE_BELOW {
      var p := Candidate(slot, draws[1]);
      var cs := if FarFromAll(colliders, p) then colliders + [p] else colliders;
      PlacePegsStep(slot, colliders, draws);
      CandidatesPlacedOrNear(slot, cs, draws[2..]);
      var rest := PlacePegs(slot, cs, draws[2..]).value;
      PlacedOrNearRound(slot, colliders, draws, rest.pegs, rest.used);
    }
  }

  /** The step of `CandidatesPlacedOrNear` for one round of the loop, given
      the property for the rounds after it. */
  lemma PlacedOrNearRound(slot: Slot, colliders: seq<Vec2>, draws: seq<U32>, rest: seq<Vec2>, restUsed: nat)
    requires |draws| >= 2 && restUsed <= |draws| - 2
    requires var p := Candidate(slot, draws[1]);
             var cs := if FarFromAll(colliders, p) then colliders + [p] else colliders;
             forall j :: 0 < j < restUsed - 1 && j % 2 == 1 ==>
               Candidate(slot, draws[2..][j]) in rest || !FarFromAll(cs + rest, Candidate(slot, draws[2..][j]))
    ensures var p := Candidate(slot, draws[1]);
            var pegs := (if FarFromAll(colliders, p) then [p] else []) + rest;
            forall j :: 0 < j < restUsed + 1 && j % 2 == 1 ==>
              Candidate(slot, draws[j]) in pegs || !FarFromAll(colliders + pegs, Candidate(slot, draws[j]))
  {
    var p := Candidate(slot, draws[1]);
    var far := FarFromAll(colliders, p);
    var cs := if far then colliders + [p] else colliders;
    var pegs := (if far then [p] else []) + rest;
    RoundKeepsElements(colliders, p, far, rest);
    forall j | 0 < j < restUsed + 1 && j % 2 == 1
      ensures Candidate(slot, draws[j]) in pegs || !FarFromAll(colliders + pegs, Candidate(slot, draws[j]))
    {
      if j == 1 {
        PlacedOrNearFirst(colliders, p, far, rest);
      } else {
        assert draws[2..][j - 2] == draws[j];
        PlacedOrNearLater(colliders, cs, pegs, rest, Candidate(slot, draws[j]));
      }
    }
  }

  lemma PlacedOrNearFirst(colliders: seq<Vec2>, p: Vec2, far: bool, rest: seq<Vec2>)
    requires far == FarFromAll(colliders, p)
    requires forall x :: x in colliders ==> x in colliders + ((if far then [p] else []) + rest)
    ensures var pegs := (if far then [p] else []) + rest;
            p in pegs || !FarFromAll(colliders + pegs, p)
  {
    var pegs := (if far then [p] else []) + rest;
    if far {
      assert pegs[0] == p;
    } else if FarFromAll(colliders + pegs, p) {
      FarFromSubset(colliders, colliders + pegs, p);
    }
  }

  lemma PlacedOrNearLater(colliders: seq<Vec2>, cs: seq<Vec2>, pegs: seq<Vec2>, rest: seq<Vec2>, q: Vec2)
    requires forall x :: x in cs + rest ==> x in colliders + pegs
    requires forall x :: x in rest ==> x in pegs
    requires q in rest || !FarFromAll(cs + rest, q)
    ensures q in pegs || !FarFromAll(colliders + pegs, q)
  {
    if q !in rest && FarFromAll(colliders + pegs, q) {
      FarFromSubset(cs + rest, colliders + pegs, q);
    }
  }

  /** The colliders and pegs after one round are among the colliders and
      pegs of the whole loop. */
  lemma RoundKeepsElements(colliders: seq<Vec2>, p: Vec2, far: bool, rest: seq<Vec2>)
    ensures var all := colliders + ((if far then [p] else []) + rest);
            && (forall x :: x in (if far then colliders + [p] else colliders) + rest ==> x in all)
            && (forall x :: x in colliders ==> x in all)
            && (forall x :: x in rest ==> x in (if far then [p] else []) + rest)
  {
    if far {
      assert (colliders + [p]) + rest == colliders + ([p] + rest);
    } else {
      assert [] + rest == rest;
    }
  }

  /** A position far from every element of `b` is far from every element of
      a sequence drawn from `b`. */
  lemma FarFromSubset(a: seq<Vec2>, b: seq<Vec2>, q: Vec2)
    requires forall x :: x in a ==> x in b
    requires FarFromAll(b, q)
    ensures FarFromAll(a, q)
  {
    forall i | 0 <= i < |a|
      ensures SquaredDistance(a[i], q) >= PEG_RADIUS * PEG_RADIUS
    {
      assert a[i] in b;
      var k :| 0 <= k < |b| && b[k] == a[i];
    }
  }

  /** One round of the placement loop: the candidate, if kept, comes first. */
  lemma PlacePegsStep(slot: Slot, colliders: seq<Vec2>, draws: seq<U32>)
    requires |draws| >= 2 && draws[0] < CONTINUE_BELOW
    ensures var p := Candidate(slot, draws[1]);
            var far := FarFromAll(colliders, p);
            var rest := PlacePegs(slot, if far then colliders + [p] else colliders, draws[2..]);
            var r := PlacePegs(slot, colliders, draws);
            r.Ok? ==> rest.Ok? && r.value.pegs == (if far then [p] else []) + rest.value.pegs
  {
  }

  lemma OnSlotPrepend(slot: Slot, p: Vec2, keep: bool, pegs: seq<Vec2>)
    requires OnSlot(slot, p)
    requires forall i :: 0 <= i < |pegs| ==> OnSlot(slot, pegs[i])
    ensures var all := (if keep then [p] else []) + pegs;
            forall i :: 0 <= i < |all| ==> OnSlot(slot, all[i])
  {
    var all := (if keep then [p] else []) + pegs;
    forall i | 0 <= i < |all| ensures OnSlot(slot, all[i]) {
      if keep && i > 0 {
        assert all[i] == pegs[i - 1];
      } else if !keep {
        assert all[i] == pegs[i];
      }
    }
  }

  lemma CandidateOnSlot(slot: Slot, draw: U32)
    ensures OnSlot(slot, Candidate(slot, draw))
  {
    var w := Offset(slot.width, draw);
    OffsetWithinSlot(slot.width, draw);
    assert Candidate(slot, draw) == slot.position.Add(slot.axis.Scale(w));
  }

  /** Pegs far from `colliders + [p]` are far from `colliders` and from `p`;
      prepending `p` to pairwise-apart pegs keeps them pairwise apart. */
  lemma FarFromExtended(colliders: seq<Vec2>, p: Vec2, pegs: seq<Vec2>)
    requires forall i :: 0 <= i < |pegs| ==> FarFromAll(colliders + [p], pegs[i])
    requires PairwiseApart(pegs)
    ensures forall i :: 0 <= i < |pegs| ==> FarFromAll(colliders, pegs[i])
    ensures PairwiseApart([p] + pegs)
  {
    forall i | 0 <= i < |pegs|
      ensures FarFromAll(colliders, pegs[i]) && SquaredDistance(p, pegs[i]) >= PEG_RADIUS * PEG_RADIUS
    {
      assert FarFromAll(colliders + [p], pegs[i]);
      forall k | 0 <= k < |colliders|
        ensures SquaredDistance(colliders[k], pegs[i]) >= PEG_RADIUS * PEG_RADIUS
      {
        assert (colliders + [p])[k] == colliders[k];
      }
      assert (colliders + [p])[|colliders|] == p;
    }
    var all := [p] + pegs;
    forall i, j | 0 <= i < j < |all|
      ensures SquaredDistance(all[i], all[j]) >= PEG_RADIUS * PEG_RADIUS
    {
      if i == 0 {
        assert all[j] == pegs[j - 1];
      } else {
        assert all[i] == pegs[i - 1] && all[j] == pegs[j - 1];
      }
    }
  }

  // ---------------------------------------------------------------------
  // Resurfacing every checkpoint the resurfacer passed.

  /** A peg entity spawned for a checkpoint. */
  datatype Peg = Peg(id: Entity, checkpoint: Entity, position: Vec2)

  /** The ids of the pegs of `pegs` spawned for checkpoint `e`, in order. */
  function IdsFor(pegs: seq<Peg>, e: Entity): seq<Entity>
  {
    if |pegs| == 0 then []
    else (if pegs[0].checkpoint == e then [pegs[0].id] else []) + IdsFor(pegs[1..], e)
  }

  lemma IdsForConcat(a: seq<Peg>, b: seq<Peg>, e: Entity)
    ensures IdsFor(a + b, e) == IdsFor(a, e) + IdsFor(b, e)
  {
    if |a| > 0 {
      var head := if a[0].checkpoint == e then [a[0].id] else [];
      assert (a + b)[0] == a[0];
      assert (a + b)[1..] == a[1..] + b;
      IdsForConcat(a[1..], b, e);
      calc {
        IdsFor(a + b, e);
        head + IdsFor(a[1..] + b, e);
        head + (IdsFor(a[1..], e) + IdsFor(b, e));
        (head + IdsFor(a[1..], e)) + IdsFor(b, e);
      }
    } else {
      assert a + b == b;
    }
  }

  lemma IdsForAbsent(pegs: seq<Peg>, e: Entity)
    requires forall i :: 0 <= i < |pegs| ==> pegs[i].checkpoint != e
    ensures IdsFor(pegs, e) == []
  {
  }

  /** Spawns one peg per position, in order, for `checkpoint`; each spawn
      takes the next entity id from `first` on. */
  function SpawnPegs(first: nat, checkpoint: Entity, positions: seq<Vec2>): (r: seq<Peg>)
    ensures |r| == |positions|
    ensures forall i :: 0 <= i < |r| ==> r[i].checkpoint == checkpoint && r[i].position == positions[i]
    ensures forall i :: 0 <= i < |r| ==> r[i].id == first + i
    ensures IdsFor(r, checkpoint) == seq(|positions|, i => first + i)
    decreases |positions|
  {
    if |positions| == 0 then []
    else
      var rest := SpawnPegs(first + 1, checkpoint, positions[1..]);
      assert forall i :: 0 <= i < |rest| ==> rest[i].position == positions[i + 1];
      assert forall i :: 0 <= i < |rest| ==> rest[i].id == first + 1 + i;
      assert IdsFor([Peg(first, checkpoint, positions[0])] + rest, checkpoint)
          == [first] + seq(|positions| - 1, i => first + 1 + i);
      [Peg(first, checkpoint, positions[0])] + rest
  }

  /** The entity ids of `pegs` are pairwise distinct and all below `bound`. */
  predicate FreshIds(pegs: seq<Peg>, bound: nat)
  {
    && (forall i :: 0 <= i < |pegs| ==> pegs[i].id < bound)
    && (forall i, j :: 0 <= i < j < |pegs| ==> pegs[i].id != pegs[j].id)
  }

  /** Spawning from an id above every existing peg's id keeps all peg ids
      distinct. */
  lemma SpawnedIdsAreFresh(pegs: seq<Peg>, nextId: nat, checkpoint: Entity, positions: seq<Vec2>)
    requires FreshIds(pegs, nextId)
    ensures FreshIds(pegs + SpawnPegs(nextId, checkpoint, positions), nextId + |positions|)
  {
    var all := pegs + SpawnPegs(nextId, checkpoint, positions);
    forall i, j | 0 <= i < j < |all|
      ensures all[i].id != all[j].id
    {
      if j >= |pegs| {
        assert all[j].id == nextId + (j - |pegs|);
      }
    }
  }

  /** The old obstacle entities that are still obstacles: these are despawned. */
  function StillObstacles(old_: seq<Entity>, obstacles: set<Entity>): (r: seq<Entity>)
    ensures forall x :: x in r <==> x in old_ && x in obstacles
  {
    if |old_| == 0 then []
    else (if old_[0] in obstacles then [old_[0]] else []) + StillObstacles(old_[1..], obstacles)
  }

  /** The world the resurfacing step reads and writes. `lists` holds the
      `CheckpointObstacles` of the checkpoints that have one. */
  datatype Ground = Ground(
    lists: map<Entity, seq<Entity>>,
    despawned: seq<Entity>,
    pegs: seq<Peg>,
    draws: seq<U32>,
    nextId: nat)

  /** The pegs added to `g` in `done`. */
  function Added(g: Ground, done: Ground): seq<Peg>
    requires |g.pegs| <= |done.pegs|
  {
    done.pegs[|g.pegs|..]
  }

  /** Resurfaces one checkpoint: places its pegs against the other
      colliders of the world, despawns its old obstacles that are still
      obstacles and makes its obstacle list exactly its new pegs. An
      unknown checkpoint entity is the game's `expect` failing. */
  function ResurfaceOne(g: Ground, e: Entity, slots: map<Entity, Slot>,
                        obstacles: set<Entity>, colliders: seq<Vec2>): (r: Result<Ground>)
    ensures r.Err? ==> r.error == Exhausted || e !in slots
    ensures e !in slots ==> r.Err?
    ensures r.Ok? ==> |g.pegs| <= |r.value.pegs| && r.value.pegs[..|g.pegs|] == g.pegs
    ensures r.Ok? ==> forall i :: |g.pegs| <= i < |r.value.pegs| ==>
              r.value.pegs[i].checkpoint == e && r.value.pegs[i].id == g.nextId + (i - |g.pegs|)
    ensures r.Ok? ==> r.value.nextId == g.nextId + (|r.value.pegs| - |g.pegs|)
    ensures r.Ok? ==> r.value.lists == g.lists[e := IdsFor(Added(g, r.value), e)]
    ensures r.Ok? ==> forall x :: x in r.value.despawned <==>
              x in g.despawned || (e in g.lists && x in g.lists[e] && x in obstacles)
  {
    if e !in slots then Err(Panic("tracker to track valid checkpoint entities"))
    else
      var placement := PlacePegs(slots[e], colliders, g.draws);
      if placement.Err? then Err(placement.error)
      else
        var newPegs := SpawnPegs(g.nextId, e, placement.value.pegs);
        var gone := if e in g.lists then StillObstacles(g.lists[e], obstacles) else [];
        var pegs := g.pegs + newPegs;
        assert pegs[..|g.pegs|] == g.pegs && pegs[|g.pegs|..] == newPegs;
        Ok(Ground(g.lists[e := IdsFor(newPegs, e)], g.despawned + gone, pegs,
                  g.draws[placement.value.used..], g.nextId + |newPegs|))
  }

  /** Resurfaces the checkpoints of `order` (the drained tracker, in its
      drain order) one after the other. Pegs for one checkpoint are not
      checked against pegs spawned for an earlier one in the same run,
      whose spawning the game defers. */
  function ResurfaceCheckpoints(g: Ground, order: seq<Entity>, slots: map<Entity, Slot>,
                                obstacles: set<Entity>, colliders: seq<Vec2>): (r: Result<Ground>)
    ensures r.Ok? ==> r.value.lists.Keys == g.lists.Keys + set e | e in order
    ensures r.Ok? ==> forall e :: e in g.lists && e !in order ==> r.value.lists[e] == g.lists[e]
    ensures r.Ok? ==> |g.pegs| <= |r.value.pegs| && r.value.pegs[..|g.pegs|] == g.pegs
    ensures r.Ok? ==> forall i :: |g.pegs| <= i < |r.value.pegs| ==>
              r.value.pegs[i].checkpoint in order && r.value.pegs[i].id == g.nextId + (i - |g.pegs|)
    ensures r.Ok? ==> r.value.nextId == g.nextId + (|r.value.pegs| - |g.pegs|)
    ensures r.Err? ==> r.error == Exhausted || exists e :: e in order && e !in slots
    decreases |order|
  {
    if |order| == 0 then
      assert g.pegs[..|g.pegs|] == g.pegs;
      Ok(g)
    else
      var next := ResurfaceOne(g, order[0], slots, obstacles, colliders);
      if next.Err? then next
      else
        var rest := ResurfaceCheckpoints(next.value, order[1..], slots, obstacles, colliders);
        if rest.Ok? then
          CheckpointsStep(g, next.value, rest.value, order);
          rest
        else rest
  }

  /** One step of `ResurfaceCheckpoints`: resurfacing the head of `order`
      and then its tail keeps the contract. */
  lemma CheckpointsStep(g: Ground, next: Ground, done: Ground, order: seq<Entity>)
    requires |order| > 0
    requires next.lists.Keys == g.lists.Keys + {order[0]}
    requires forall e :: e in g.lists && e != order[0] ==> next.lists[e] == g.lists[e]
    requires |g.pegs| <= |next.pegs| && next.pegs[..|g.pegs|] == g.pegs
    requires forall i :: |g.pegs| <= i < |next.pegs| ==>
               next.pegs[i].checkpoint == order[0] && next.pegs[i].id == g.nextId + (i - |g.pegs|)
    requires next.nextId == g.nextId + (|next.pegs| - |g.pegs|)
    requires done.lists.Keys == next.lists.Keys + set e | e in order[1..]
    requires forall e :: e in next.lists && e !in order[1..] ==> done.lists[e] == next.lists[e]
    requires |next.pegs| <= |done.pegs| && done.pegs[..|next.pegs|] == next.pegs
    requires forall i :: |next.pegs| <= i < |done.pegs| ==>
               done.pegs[i].checkpoint in order[1..] && done.pegs[i].id == next.nextId + (i - |next.pegs|)
    requires done.nextId == next.nextId + (|done.pegs| - |next.pegs|)
    ensures done.lists.Keys == g.lists.Keys + set e | e in order
    ensures forall e :: e in g.lists && e !in order ==> done.lists[e] == g.lists[e]
    ensures |g.pegs| <= |done.pegs| && done.pegs[..|g.pegs|] == g.pegs
    ensures forall i :: |g.pegs| <= i < |done.pegs| ==>
              done.pegs[i].checkpoint in order && done.pegs[i].id == g.nextId + (i - |g.pegs|)
    ensures done.nextId == g.nextId + (|done.pegs| - |g.pegs|)
  {
    PrefixesCompose(g.pegs, next.pegs, done.pegs);
    OrderHeadTail(order);
    forall e | e in g.lists && e !in order ensures done.lists[e] == g.lists[e] {
      assert e !in order[1..] && e != order[0];
    }
    forall i | |g.pegs| <= i < |done.pegs|
      ensures done.pegs[i].checkpoint in order && done.pegs[i].id == g.nextId + (i - |g.pegs|)
    {
      if i < |next.pegs| {
        assert done.pegs[i] == next.pegs[i];
      }
    }
  }

  lemma PrefixesCompose<T>(a: seq<T>, b: seq<T>, c: seq<T>)
    requires |a| <= |b| && b[..|a|] == a
    requires |b| <= |c| && c[..|b|] == b
    ensures c[..|a|] == a
  {
    assert c[..|a|] == c[..|b|][..|a|];
  }

  lemma OrderHeadTail(order: seq<Entity>)
    requires |order| > 0
    ensures (set e | e in order) == {order[0]} + set e | e in order[1..]
  {
    forall x | x in order ensures x == order[0] || x in order[1..] {
      var k :| 0 <= k < |order| && order[k] == x;
      if k > 0 { assert order[1..][k - 1] == x; }
    }
  }

  lemma NotInTail(order: seq<Entity>)
    requires |order| > 0
    requires forall i, j :: 0 <= i < j < |order| ==> order[i] != order[j]
    ensures order[0] !in order[1..]
  {
    forall k | 0 <= k < |order[1..]| ensures order[1..][k] != order[0] {
      assert order[1..][k] == order[k + 1];
    }
  }

  /** With a drain order of distinct checkpoints, each resurfaced
      checkpoint's obstacle list is exactly the ids of the pegs spawned for
      it, in spawn order. */
  lemma {:induction false} ListsHoldNewPegs(g: Ground, order: seq<Entity>, slots: map<Entity, Slot>,
                                            obstacles: set<Entity>, colliders: seq<Vec2>)
    requires forall i, j :: 0 <= i < j < |order| ==> order[i] != order[j]
    ensures var r := ResurfaceCheckpoints(g, order, slots, obstacles, colliders);
            r.Ok? ==> forall e :: e in order ==> r.value.lists[e] == IdsFor(Added(g, r.value), e)
    decreases |order|
  {
    var r := ResurfaceCheckpoints(g, order, slots, obstacles, colliders);
    if |order| > 0 && r.Ok? {
      var e := order[0];
      var next := ResurfaceOne(g, e, slots, obstacles, colliders).value;
      var done := r.value;
      ListsHoldNewPegs(next, order[1..], slots, obstacles, colliders);
      NotInTail(order);
      forall x | x in order
        ensures done.lists[x] == IdsFor(Added(g, done), x)
      {
        ListStep(g, next, done, order, x);
      }
    }
  }

  /** One step of `ListsHoldNewPegs`: the pegs added before and after
      `next` together hold the list of `x`. */
  lemma ListStep(g: Ground, next: Ground, done: Ground, order: seq<Entity>, x: Entity)
    requires |order| > 0 && order[0] !in order[1..] && x in order
    requires |g.pegs| <= |next.pegs| && next.pegs[..|g.pegs|] == g.pegs
    requires |next.pegs| <= |done.pegs| && done.pegs[..|next.pegs|] == next.pegs
    requires forall i :: |g.pegs| <= i < |next.pegs| ==> next.pegs[i].checkpoint == order[0]
    requires forall i :: |next.pegs| <= i < |done.pegs| ==> done.pegs[i].checkpoint in order[1..]
    requires forall c :: c in order ==> c in done.lists
    requires order[0] in next.lists && next.lists[order[0]] == IdsFor(Added(g, next), order[0])
    requires done.lists[order[0]] == next.lists[order[0]]
    requires forall c :: c in order[1..] ==> done.lists[c] == IdsFor(Added(next, done), c)
    ensures done.lists[x] == IdsFor(Added(g, done), x)
  {
    var e := order[0];
    var newPegs := Added(g, next);
    var later := Added(next, done);
    AddedCompose(g, next, done);
    IdsForConcat(newPegs, later, x);
    if x == e {
      LaterPegsNotForHead(next, done, order);
      IdsForAbsent(later, e);
    } else {
      assert x in order[1..];
      EarlierPegsOnlyForHead(g, next, order[0], x);
      IdsForAbsent(newPegs, x);
    }
  }

  lemma AddedCompose(g: Ground, next: Ground, done: Ground)
    requires |g.pegs| <= |next.pegs| && next.pegs[..|g.pegs|] == g.pegs
    requires |next.pegs| <= |done.pegs| && done.pegs[..|next.pegs|] == next.pegs
    ensures Added(g, done) == Added(g, next) + Added(next, done)
  {
    assert done.pegs == next.pegs + Added(next, done);
    assert next.pegs == g.pegs + Added(g, next);
  }

  lemma LaterPegsNotForHead(next: Ground, done: Ground, order: seq<Entity>)
    requires |order| > 0 && order[0] !in order[1..]
    requires |next.pegs| <= |done.pegs|
    requires forall i :: |next.pegs| <= i < |done.pegs| ==> done.pegs[i].checkpoint in order[1..]
    ensures forall i :: 0 <= i < |Added(next, done)| ==> Added(next, done)[i].checkpoint != order[0]
  {
    var later := Added(next, done);
    forall i | 0 <= i < |later| ensures later[i].checkpoint != order[0] {
      assert later[i] == done.pegs[|next.pegs| + i];
    }
  }

  lemma EarlierPegsOnlyForHead(g: Ground, next: Ground, e: Entity, x: Entity)
    requires |g.pegs| <= |next.pegs| && x != e
    requires forall i :: |g.pegs| <= i < |next.pegs| ==> next.pegs[i].checkpoint == e
    ensures forall i :: 0 <= i < |Added(g, next)| ==> Added(g, next)[i].checkpoint != x
  {
    var newPegs := Added(g, next);
    forall i | 0 <= i < |newPegs| ensures newPegs[i].checkpoint != x {
      assert newPegs[i] == next.pegs[|g.pegs| + i];
    }
  }

  /** An old obstacle is despawned exactly when it was listed for a
      resurfaced checkpoint and is still an obstacle. */
  lemma {:induction false} DespawnedAreOldObstacles(g: Ground, order: seq<Entity>, slots: map<Entity, Slot>,
                                                    obstacles: set<Entity>, colliders: seq<Vec2>)
    requires forall i, j :: 0 <= i < j < |order| ==> order[i] != order[j]
    ensures var r := ResurfaceCheckpoints(g, order, slots, obstacles, colliders);
            r.Ok? ==> forall x :: x in r.value.despawned <==>
              x in g.despawned || exists e :: e in order && e in g.lists && x in g.lists[e] && x in obstacles
    decreases |order|
  {
    var r := ResurfaceCheckpoints(g, order, slots, obstacles, colliders);
    if |order| > 0 && r.Ok? {
      var e := order[0];
      var next := ResurfaceOne(g, e, slots, obstacles, colliders).value;
      DespawnedAreOldObstacles(next, order[1..], slots, obstacles, colliders);
      NotInTail(order);
      OrderHeadTail(order);
      forall x
        ensures x in r.value.despawned <==>
          x in g.despawned || exists c :: c in order && c in g.lists && x in g.lists[c] && x in obstacles
      {
        if x in r.value.despawned && x !in g.despawned && !(e in g.lists && x in g.lists[e] && x in obstacles) {
          var c :| c in order[1..] && c in next.lists && x in next.lists[c] && x in obstacles;
          assert c != e;
          assert c in order;
        }
        if exists c :: c in order && c in g.lists && x in g.lists[c] && x in obstacles {
          var c :| c in order && c in g.lists && x in g.lists[c] && x in obstacles;
          if c != e {
            assert c in order[1..];
            assert next.lists[c] == g.lists[c];
          }
        }
      }
    }
  }

  /** `resurface_track` for one resurfacer: nothing happens unless its
      tracker changed and holds checkpoints; otherwise every tracked
      checkpoint is resurfaced and the tracker is left empty. */
  datatype Resurfaced = Resurfaced(tracker: set<Entity>, ground: Ground)

  function ResurfaceTrack(tracker: set<Entity>, changed: bool, order: seq<Entity>, g: Ground,
                          slots: map<Entity, Slot>, obstacles: set<Entity>, colliders: seq<Vec2>): (r: Result<Resurfaced>)
    requires forall e :: e in tracker <==> e in order
    requires forall i, j :: 0 <= i < j < |order| ==> order[i] != order[j]
    ensures !changed || tracker == {} ==> r == Ok(Resurfaced(tracker, g))
    ensures changed && r.Ok? ==> r.value.tracker == {}
    ensures changed && r.Ok? ==> r.value.ground.lists.Keys == g.lists.Keys + tracker
    ensures changed && r.Ok? ==> forall e :: e in g.lists && e !in tracker ==> r.value.ground.lists[e] == g.lists[e]
    ensures changed && r.Ok? ==> |g.pegs| <= |r.value.ground.pegs|
    ensures changed && r.Ok? ==>
              forall e :: e in tracker ==> r.value.ground.lists[e] == IdsFor(r.value.ground.pegs[|g.pegs|..], e)
    ensures changed && r.Ok? ==> forall x :: x in r.value.ground.despawned <==>
              x in g.despawned || exists e :: e in tracker && e in g.lists && x in g.lists[e] && x in obstacles
    ensures changed && r.Err? ==> r.error == Exhausted || exists e :: e in tracker && e !in slots
  {
    if !changed || tracker == {} then Ok(Resurfaced(tracker, g))
    else
      var done := ResurfaceCheckpoints(g, order, slots, obstacles, colliders);
      if done.Err? then Err(done.error)
      else
        assert (set e | e in order) == tracker;
        ListsHoldNewPegs(g, order, slots, obstacles, colliders);
        DespawnedAreOldObstacles(g, order, slots, obstacles, colliders);
        Ok(Resurfaced({}, done.value))
  }

  /** Resurfacing keeps peg entity ids distinct: the new pegs take ids from
      `nextId` on, above every id already in use. */
  lemma ResurfacedIdsAreFresh(g: Ground, order: seq<Entity>, slots: map<Entity, Slot>,
                              obstacles: set<Entity>, colliders: seq<Vec2>)
    requires FreshIds(g.pegs, g.nextId)
    ensures var r := ResurfaceCheckpoints(g, order, slots, obstacles, colliders);
            r.Ok? ==> FreshIds(r.value.pegs, r.value.nextId)
  {
    var r := ResurfaceCheckpoints(g, order, slots, obstacles, colliders);
    if r.Ok? {
      var pegs := r.value.pegs;
      forall i, j | 0 <= i < j < |pegs|
        ensures pegs[i].id != pegs[j].id
      {
        if i < |g.pegs| && j < |g.pegs| {
          assert pegs[i] == g.pegs[i] && pegs[j] == g.pegs[j];
        } else if i < |g.pegs| {
          assert pegs[i] == g.pegs[i];
        }
      }
      forall i | 0 <= i < |pegs|
        ensures pegs[i].id < r.value.nextId
      {
        if i < |g.pegs| {
          assert pegs[i] == g.pegs[i];
        }
      }
    }
  }
}
