/**
  Lap tag: the "it" tag passes between racers on collision, a change of
  tag restarts the racers' lap trackers, and a completed lap scores a point
  for a racer that is "it".
 */
module LapTag {
  import opened Base
  import opened Track

  /** Who holds the tag and who may receive it (`TagIt`, `CanBeIt`). */
  datatype Tags = Tags(tagIt: set<Entity>, canBeIt: set<Entity>)

  /** `e` may receive the tag: it has `CanBeIt` and not `TagIt`. */
  predicate Taggable(tags: Tags, e: Entity)
  {
    e in tags.canBeIt && e !in tags.tagIt
  }

  /** The (holder, receiver) pair of a collision that passes the tag, if any;
      the first entity is tried as the holder first. */
  function TagPair(tags: Tags, c: Collision): (r: Option<(Entity, Entity)>)
    ensures r.Some? <==>
              (c.e1 in tags.tagIt && c.e2 !in tags.tagIt && Taggable(tags, c.e2))
              || (c.e2 in tags.tagIt && c.e1 !in tags.tagIt && Taggable(tags, c.e1))
    ensures r.Some? ==>
              && r.value.0 in tags.tagIt && Taggable(tags, r.value.1)
              && ((r.value.0 == c.e1 && r.value.1 == c.e2) || (r.value.0 == c.e2 && r.value.1 == c.e1))
  {
    if c.e1 in tags.tagIt && c.e2 !in tags.tagIt && Taggable(tags, c.e2) then Some((c.e1, c.e2))
    else if c.e2 in tags.tagIt && c.e1 !in tags.tagIt && Taggable(tags, c.e1) then Some((c.e2, c.e1))
    else None
  }

  /** One collision: the holder loses the tag and the receiver gains it. */
  function TransferTag(tags: Tags, c: Collision): (r: Tags)
    ensures r.canBeIt == tags.canBeIt
    ensures |r.tagIt| == |tags.tagIt|
    ensures TagPair(tags, c).None? ==> r == tags
    ensures TagPair(tags, c).Some? ==>
              var (it, tagged) := TagPair(tags, c).value;
              it !in r.tagIt && tagged in r.tagIt
    ensures forall e :: e != c.e1 && e != c.e2 ==> (e in r.tagIt <==> e in tags.tagIt)
    ensures forall e :: e in r.tagIt ==> e in tags.tagIt || e in tags.canBeIt
  {
    match TagPair(tags, c)
    case None => tags
    case Some((it, tagged)) =>
      var without := tags.tagIt - {it};
      assert |without| == |tags.tagIt| - 1;
      Tags(without + {tagged}, tags.canBeIt)
  }

  /** Two holders, two non-holders, or a holder meeting a racer without
      `CanBeIt`: the collision changes nothing. */
  lemma NoTransferCases(tags: Tags, c: Collision)
    requires || (c.e1 in tags.tagIt && c.e2 in tags.tagIt)
             || (c.e1 !in tags.tagIt && c.e2 !in tags.tagIt)
             || (c.e1 in tags.tagIt && c.e2 !in tags.canBeIt)
             || (c.e2 in tags.tagIt && c.e1 !in tags.canBeIt)
    ensures TransferTag(tags, c) == tags
  {
  }

  /** The entities whose tag state differs between `before` and `after`:
      what the game reads from `Added<TagIt>` and `RemovedComponents<TagIt>`. */
  function TagChanges(before: set<Entity>, after: set<Entity>): set<Entity>
  {
    (after - before) + (before - after)
  }

  /** Clears the tracker of every racer in `changed` that has one. */
  function ResetLapOnTag(trackers: map<Entity, CheckpointTracker>, changed: set<Entity>): (r: map<Entity, CheckpointTracker>)
    ensures r.Keys == trackers.Keys
    ensures forall e :: e in trackers && e in changed ==> r[e].checkpoints == {}
    ensures forall e :: e in trackers && e !in changed ==> r[e] == trackers[e]
  {
    map e | e in trackers :: if e in changed then Clear(trackers[e]) else trackers[e]
  }

  /** Scores a lap for `lap.racer` when it holds the tag and has a tracker
      and a score. */
  function ScoreLap(scores: map<Entity, nat>, tagIt: set<Entity>, trackers: map<Entity, CheckpointTracker>, lap: LapComplete): (r: map<Entity, nat>)
    ensures r.Keys == scores.Keys
    ensures forall e :: e in scores && e != lap.racer ==> r[e] == scores[e]
    ensures lap.racer in scores ==>
              (r[lap.racer] == scores[lap.racer] + 1 <==> lap.racer in tagIt && lap.racer in trackers)
    ensures lap.racer in scores && !(lap.racer in tagIt && lap.racer in trackers) ==>
              r[lap.racer] == scores[lap.racer]
  {
    var e := lap.racer;
    if e in scores && e in tagIt && e in trackers then scores[e := scores[e] + 1] else scores
  }

  /** The laps of `laps` completed by `e`. */
  function LapsOf(laps: seq<LapComplete>, e: Entity): nat
  {
    if |laps| == 0 then 0 else (if laps[0].racer == e then 1 else 0) + LapsOf(laps[1..], e)
  }

  /** All the lap events of a frame in order. */
  function ScoreCompletedLaps(scores: map<Entity, nat>, tagIt: set<Entity>, trackers: map<Entity, CheckpointTracker>, laps: seq<LapComplete>): (r: map<Entity, nat>)
    ensures r.Keys == scores.Keys
    ensures forall e :: e in scores ==>
              r[e] == scores[e] + (if e in tagIt && e in trackers then LapsOf(laps, e) else 0)
    decreases |laps|
  {
    if |laps| == 0 then scores
    else ScoreCompletedLaps(ScoreLap(scores, tagIt, trackers, laps[0]), tagIt, trackers, laps[1..])
  }

  /** Scores never go down. */
  lemma ScoresNeverDecrease(scores: map<Entity, nat>, tagIt: set<Entity>, trackers: map<Entity, CheckpointTracker>, laps: seq<LapComplete>)
    ensures var r := ScoreCompletedLaps(scores, tagIt, trackers, laps);
            forall e :: e in scores ==> scores[e] <= r[e]
  {
  }

  // ---------------------------------------------------------------------
  // One collision through the whole chain: transfer, then tracker reset.

  datatype Racers = Racers(tags: Tags, trackers: map<Entity, CheckpointTracker>, scores: map<Entity, nat>)

  /** A collision passes the tag, and the racers that gained or lost it
      start their laps over. */
  function TagCollision(w: Racers, c: Collision): (r: Racers)
    ensures |r.tags.tagIt| == |w.tags.tagIt|
    ensures r.scores == w.scores && r.trackers.Keys == w.trackers.Keys
    ensures forall e :: e in w.trackers && e in TagChanges(w.tags.tagIt, r.tags.tagIt) ==>
              r.trackers[e] == NewTracker
    ensures forall e :: e in w.trackers && e !in TagChanges(w.tags.tagIt, r.tags.tagIt) ==>
              r.trackers[e] == w.trackers[e]
  {
    var tags := TransferTag(w.tags, c);
    Racers(tags, ResetLapOnTag(w.trackers, TagChanges(w.tags.tagIt, tags.tagIt)), w.scores)
  }

  /** Only the two colliding racers can have their tag state changed. */
  lemma TagChangesOnlyColliders(w: Racers, c: Collision)
    ensures TagChanges(w.tags.tagIt, TagCollision(w, c).tags.tagIt) <= {c.e1, c.e2}
  {
  }

  // ---------------------------------------------------------------------
  // Several collisions in one frame.

  /** The commands one collision queues: remove the holder's tag, give it to
      the receiver. */
  datatype TagCommand = RemoveTag(entity: Entity) | InsertTag(entity: Entity)

  function ApplyCommands(tagIt: set<Entity>, cmds: seq<TagCommand>): set<Entity>
    decreases |cmds|
  {
    if |cmds| == 0 then tagIt
    else
      var next := match cmds[0]
        case RemoveTag(e) => tagIt - {e}
        case InsertTag(e) => tagIt + {e};
      ApplyCommands(next, cmds[1..])
  }

  /** The commands queued for a frame's collisions, every decision taken
      against the tags as they stood at the start of the frame. */
  function FrameCommands(tags: Tags, cs: seq<Collision>): seq<TagCommand>
    decreases |cs|
  {
    if |cs| == 0 then []
    else
      var here := match TagPair(tags, cs[0])
        case None => []
        case Some((it, tagged)) => [RemoveTag(it), InsertTag(tagged)];
      here + FrameCommands(tags, cs[1..])
  }

  /** A frame of collisions as the game runs it: queries are not refreshed
      between events and the commands take effect after the last one. */
  function TransferTagFrame(tags: Tags, cs: seq<Collision>): (r: Tags)
    ensures r.canBeIt == tags.canBeIt
    ensures forall e :: e in r.tagIt ==> e in tags.tagIt || e in tags.canBeIt
    ensures forall e :: (forall i :: 0 <= i < |cs| ==> cs[i].e1 != e && cs[i].e2 != e) ==>
              (e in r.tagIt <==> e in tags.tagIt)
  {
    FrameCommandsInsertTaggable(tags, cs);
    ApplyCommandsInserts(tags.tagIt, FrameCommands(tags, cs), tags.canBeIt);
    forall e | forall i :: 0 <= i < |cs| ==> cs[i].e1 != e && cs[i].e2 != e
      ensures e in ApplyCommands(tags.tagIt, FrameCommands(tags, cs)) <==> e in tags.tagIt
    {
      FrameCommandsAvoid(tags, cs, e);
      ApplyCommandsAvoid(tags.tagIt, FrameCommands(tags, cs), e);
    }
    Tags(ApplyCommands(tags.tagIt, FrameCommands(tags, cs)), tags.canBeIt)
  }

  /** Every entity a frame's commands give the tag to may receive it. */
  lemma {:induction false} FrameCommandsInsertTaggable(tags: Tags, cs: seq<Collision>)
    ensures forall k :: 0 <= k < |FrameCommands(tags, cs)| && FrameCommands(tags, cs)[k].InsertTag? ==>
              FrameCommands(tags, cs)[k].entity in tags.canBeIt
    decreases |cs|
  {
    if |cs| > 0 {
      FrameCommandsInsertTaggable(tags, cs[1..]);
    }
  }

  /** Commands that insert only entities of `allowed` add no other holder. */
  lemma {:induction false} ApplyCommandsInserts(tagIt: set<Entity>, cmds: seq<TagCommand>, allowed: set<Entity>)
    requires forall k :: 0 <= k < |cmds| && cmds[k].InsertTag? ==> cmds[k].entity in allowed
    ensures ApplyCommands(tagIt, cmds) <= tagIt + allowed
    decreases |cmds|
  {
    if |cmds| > 0 {
      var next := match cmds[0]
        case RemoveTag(e) => tagIt - {e}
        case InsertTag(e) => tagIt + {e};
      ApplyCommandsInserts(next, cmds[1..], allowed);
    }
  }

  /** A frame's commands name only entities of its collisions. */
  lemma {:induction false} FrameCommandsAvoid(tags: Tags, cs: seq<Collision>, e: Entity)
    requires forall i :: 0 <= i < |cs| ==> cs[i].e1 != e && cs[i].e2 != e
    ensures forall k :: 0 <= k < |FrameCommands(tags, cs)| ==> FrameCommands(tags, cs)[k].entity != e
    decreases |cs|
  {
    if |cs| > 0 {
      FrameCommandsAvoid(tags, cs[1..], e);
    }
  }

  /** Commands that never name `e` leave its tag state alone. */
  lemma {:induction false} ApplyCommandsAvoid(tagIt: set<Entity>, cmds: seq<TagCommand>, e: Entity)
    requires forall k :: 0 <= k < |cmds| ==> cmds[k].entity != e
    ensures e in ApplyCommands(tagIt, cmds) <==> e in tagIt
    decreases |cmds|
  {
    if |cmds| > 0 {
      var next := match cmds[0]
        case RemoveTag(x) => tagIt - {x}
        case InsertTag(x) => tagIt + {x};
      ApplyCommandsAvoid(next, cmds[1..], e);
    }
  }

  /** One "it" racer touching two taggable racers in the same frame leaves
      two racers "it". */
  lemma FrameDuplicatesTag()
    ensures var tags := Tags({1}, {1, 2, 3});
            var r := TransferTagFrame(tags, [Collision(1, 2), Collision(1, 3)]);
            r.tagIt == {2, 3} && |r.tagIt| != |tags.tagIt|
  {
    var tags := Tags({1}, {1, 2, 3});
    var cs := [Collision(1, 2), Collision(1, 3)];
    assert TagPair(tags, cs[0]) == Some((1, 2));
    assert cs[1..] == [Collision(1, 3)];
    assert TagPair(tags, cs[1]) == Some((1, 3));
    assert cs[1..][1..] == [];
    var cmds := [RemoveTag(1), InsertTag(2), RemoveTag(1), InsertTag(3)];
    assert FrameCommands(tags, cs) == cmds;
    assert cmds[1..] == [InsertTag(2), RemoveTag(1), InsertTag(3)];
    assert cmds[1..][1..] == [RemoveTag(1), InsertTag(3)];
    assert cmds[1..][1..][1..] == [InsertTag(3)];
    assert cmds[1..][1..][1..][1..] == [];
    assert ApplyCommands({1}, cmds) == {2, 3};
  }

  /** A frame of collisions with the tags refreshed after each one. */
  function TransferTagSequential(tags: Tags, cs: seq<Collision>): (r: Tags)
    ensures r.canBeIt == tags.canBeIt
    ensures forall e :: e in r.tagIt ==> e in tags.tagIt || e in tags.canBeIt
    ensures forall e :: (forall i :: 0 <= i < |cs| ==> cs[i].e1 != e && cs[i].e2 != e) ==>
              (e in r.tagIt <==> e in tags.tagIt)
    decreases |cs|
  {
    if |cs| == 0 then tags else TransferTagSequential(TransferTag(tags, cs[0]), cs[1..])
  }

  /** With the tags refreshed between collisions, a frame never changes the
      number of racers that are "it". */
  lemma {:induction false} SequentialKeepsTagCount(tags: Tags, cs: seq<Collision>)
    ensures |TransferTagSequential(tags, cs).tagIt| == |tags.tagIt|
    decreases |cs|
  {
    if |cs| > 0 {
      SequentialKeepsTagCount(TransferTag(tags, cs[0]), cs[1..]);
    }
  }
}
