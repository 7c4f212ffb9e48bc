/**
  The game loop: deciding when the game is over and who won, and the
  guard of the restart button.
 */
module GameLoop {
  import opened Base

  /** The score a racer needs for the game to end. */
  const WINNING_SCORE: nat := 5

  /** One racer as `handle_gameover` reads it: its score and whether it is
      the player's car. */
  datatype Entry = Entry(score: nat, isPlayer: bool)

  /** One step of `Iterator::max_by` with a comparison of scores: the
      running best is kept only when it is strictly greater, so among equal
      maxima the later one wins. */
  function MaxByFold(best: Entry, rest: seq<Entry>): (r: Entry)
    ensures r == best || r in rest
    ensures r.score >= best.score && forall j :: 0 <= j < |rest| ==> r.score >= rest[j].score
    decreases |rest|
  {
    if |rest| == 0 then best
    else MaxByFold(if best.score > rest[0].score then best else rest[0], rest[1..])
  }

  function MaxBy(s: seq<Entry>): (r: Option<Entry>)
    ensures r.None? <==> |s| == 0
    ensures r.Some? ==> r.value in s && forall j :: 0 <= j < |s| ==> s[j].score <= r.value.score
  {
    if |s| == 0 then None else Some(MaxByFold(s[0], s[1..]))
  }

  /** `s[i]` has the highest score and no later racer ties it. */
  predicate IsLastMax(s: seq<Entry>, i: int)
  {
    && 0 <= i < |s|
    && (forall j :: 0 <= j < |s| ==> s[j].score <= s[i].score)
    && (forall j :: i < j < |s| ==> s[j].score < s[i].score)
  }

  lemma {:induction false} MaxByFoldIsLastMax(best: Entry, rest: seq<Entry>) returns (i: nat)
    ensures IsLastMax([best] + rest, i) && MaxByFold(best, rest) == ([best] + rest)[i]
    decreases |rest|
  {
    var s := [best] + rest;
    if |rest| == 0 {
      i := 0;
    } else {
      var keep := best.score > rest[0].score;
      var b := if keep then best else rest[0];
      var t := [b] + rest[1..];
      var k := MaxByFoldIsLastMax(b, rest[1..]);
      assert forall j :: 1 <= j < |t| ==> t[j] == s[j + 1];
      if k > 0 {
        i := k + 1;
        assert s[i] == t[k];
        forall j | 0 <= j < |s| ensures s[j].score <= s[i].score {
          if j >= 2 { assert s[j] == t[j - 1]; }
          else { assert t[0].score <= t[k].score; }
        }
        forall j | i < j < |s| ensures s[j].score < s[i].score {
          assert s[j] == t[j - 1];
        }
      } else if keep {
        i := 0;
        forall j | 0 < j < |s| ensures s[j].score < s[i].score {
          if j >= 2 { assert s[j] == t[j - 1]; }
        }
      } else {
        i := 1;
        forall j | 0 <= j < |s| ensures s[j].score <= s[i].score {
          if j >= 2 { assert s[j] == t[j - 1]; }
        }
        forall j | 1 < j < |s| ensures s[j].score < s[i].score {
          assert s[j] == t[j - 1];
        }
      }
    }
  }

  /** `max_by` returns the last racer with the highest score; it is `None`
      exactly for no racers. */
  lemma MaxByIsLastMax(s: seq<Entry>)
    ensures MaxBy(s).None? <==> |s| == 0
    ensures MaxBy(s).Some? ==> exists i :: IsLastMax(s, i) && MaxBy(s).value == s[i]
  {
    if |s| > 0 {
      var i := MaxByFoldIsLastMax(s[0], s[1..]);
      assert [s[0]] + s[1..] == s;
    }
  }

  /** The last maximum is unique, so the result is fully determined. */
  lemma LastMaxUnique(s: seq<Entry>, i: int, j: int)
    requires IsLastMax(s, i) && IsLastMax(s, j)
    ensures i == j
  {
    assert s[i].score <= s[j].score && s[j].score <= s[i].score;
  }

  /** `game_result` in `handle_gameover`: a removed player loses the game;
      otherwise the game is over once the best racer (the last of equal
      best) has the winning score, and won if that racer is the player. */
  function GameResult(removedPlayers: nat, racers: seq<Entry>): (r: Option<bool>)
    ensures removedPlayers > 0 ==> r == Some(false)
    ensures removedPlayers == 0 ==>
              (r.Some? <==> exists j :: 0 <= j < |racers| && racers[j].score >= WINNING_SCORE)
    ensures removedPlayers == 0 && r.Some? ==>
              exists i :: IsLastMax(racers, i) && r.value == racers[i].isPlayer
  {
    if removedPlayers > 0 then Some(false)
    else
      MaxByIsLastMax(racers);
      match MaxBy(racers)
      case None => None
      case Some(best) => if best.score >= WINNING_SCORE then Some(best.isPlayer) else None
  }

  /** With no racers and no removed player the game goes on. */
  lemma NoRacersNoResult()
    ensures GameResult(0, []) == None
  {
  }

  /** A tie at the top is decided by query order. */
  lemma TieGoesToLast()
    ensures GameResult(0, [Entry(5, true), Entry(5, false)]) == Some(false)
    ensures GameResult(0, [Entry(5, false), Entry(5, true)]) == Some(true)
  {
    assert IsLastMax([Entry(5, true), Entry(5, false)], 1);
    assert IsLastMax([Entry(5, false), Entry(5, true)], 1);
  }

  /** The state of a UI button (`Interaction`). */
  datatype Interaction = Pressed | Hovered | Idle

  /** `restart_game`'s guard: exactly one restart button, and it is pressed. */
  predicate RestartRequested(buttons: seq<Interaction>)
  {
    |buttons| == 1 && buttons[0] == Pressed
  }

  /** `restart_game`: when requested, every car and every game-over UI
      entity is despawned. The new cars come from `spawn_cars` on the one
      track, which is not part of this model; a world without exactly one
      track makes `Query::single` panic. */
  function RestartGame(buttons: seq<Interaction>, cars: set<Entity>, gameoverUi: set<Entity>, tracks: nat): (r: Result<Option<set<Entity>>>)
    ensures r == Ok(None) <==> !RestartRequested(buttons)
    ensures r.Err? <==> RestartRequested(buttons) && tracks != 1
    ensures r.Ok? && r.value.Some? ==> r.value.value == cars + gameoverUi
  {
    if |buttons| != 1 then Ok(None)
    else if buttons[0] != Pressed then Ok(None)
    else if tracks != 1 then Err(Panic("exactly one track"))
    else Ok(Some(cars + gameoverUi))
  }
}
