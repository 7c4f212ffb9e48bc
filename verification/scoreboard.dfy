/**
  The scoreboard: when to rebuild it, the order of its rows (highest
  score first, ties in query order) and the text of each row.
 */
module Scoreboard {
  import opened Base

  /** One racer's name and score, as `update_scoreboard` collects them. */
  datatype ScoreEntry = ScoreEntry(name: string, score: nat)

  /** One racer as the query yields it: its entry and whether its `Score`
      changed since the system last ran. */
  datatype Racer = Racer(entry: ScoreEntry, changed: bool)

  /** `update_scoreboard`'s guard: exactly one `ScoreboardUI` entity, and
      either some score changed or that entity was just added. Yields the
      entity to rebuild. */
  function ShouldRebuild(boards: seq<Entity>, justAdded: set<Entity>, racers: seq<Racer>): (r: Option<Entity>)
    ensures r.Some? <==>
              |boards| == 1 && ((exists i :: 0 <= i < |racers| && racers[i].changed) || boards[0] in justAdded)
    ensures r.Some? ==> r.value == boards[0]
  {
    if |boards| != 1 then None
    else if (exists i :: 0 <= i < |racers| && racers[i].changed) || boards[0] in justAdded then Some(boards[0])
    else None
  }

  // ---------------------------------------------------------------------
  // The sort: `sort_by(|a, b| b.1.cmp(&a.1))`, a stable sort on
  // descending score.

  predicate SortedDescending(s: seq<ScoreEntry>)
  {
    forall i, j :: 0 <= i < j < |s| ==> s[i].score >= s[j].score
  }

  /** The entries of `s` with score `v`, in order. */
  function WithScore(s: seq<ScoreEntry>, v: nat): seq<ScoreEntry>
  {
    if |s| == 0 then [] else WithScore(s[..|s| - 1], v) + (if s[|s| - 1].score == v then [s[|s| - 1]] else [])
  }

  /** Inserts `x` after every entry whose score is at least its own. */
  function Insert(t: seq<ScoreEntry>, x: ScoreEntry): (r: seq<ScoreEntry>)
    ensures multiset(r) == multiset(t) + multiset{x}
    ensures |r| == |t| + 1
  {
    if |t| == 0 then [x]
    else if t[0].score >= x.score then
      assert t == [t[0]] + t[1..];
      [t[0]] + Insert(t[1..], x)
    else [x] + t
  }

  /** An upper bound on the scores of `t` and `x` bounds the result. */
  lemma {:induction false} InsertBounded(t: seq<ScoreEntry>, x: ScoreEntry, b: nat)
    requires x.score <= b && forall k :: 0 <= k < |t| ==> t[k].score <= b
    ensures forall k :: 0 <= k < |Insert(t, x)| ==> Insert(t, x)[k].score <= b
    decreases |t|
  {
    if |t| > 0 && t[0].score >= x.score {
      InsertBounded(t[1..], x, b);
    }
  }

  lemma {:induction false} InsertKeepsSorted(t: seq<ScoreEntry>, x: ScoreEntry)
    requires SortedDescending(t)
    ensures SortedDescending(Insert(t, x))
    decreases |t|
  {
    if |t| > 0 && t[0].score >= x.score {
      var rest := Insert(t[1..], x);
      InsertKeepsSorted(t[1..], x);
      InsertBounded(t[1..], x, t[0].score);
      var r := [t[0]] + rest;
      forall i, j | 0 <= i < j < |r| ensures r[i].score >= r[j].score {
        if i > 0 { assert r[i] == rest[i - 1]; }
        assert r[j] == rest[j - 1];
      }
    }
  }

  /** The stable descending sort, one entry at a time in query order. */
  function SortScores(s: seq<ScoreEntry>): (r: seq<ScoreEntry>)
    ensures |r| == |s|
    ensures multiset(r) == multiset(s)
  {
    if |s| == 0 then []
    else
      assert s == s[..|s| - 1] + [s[|s| - 1]];
      Insert(SortScores(s[..|s| - 1]), s[|s| - 1])
  }

  lemma WithScoreAppend(s: seq<ScoreEntry>, t: seq<ScoreEntry>, v: nat)
    ensures WithScore(s + t, v) == WithScore(s, v) + WithScore(t, v)
    decreases |t|
  {
    if |t| == 0 {
      assert s + t == s;
    } else {
      assert (s + t)[..|s + t| - 1] == s + t[..|t| - 1];
      WithScoreAppend(s, t[..|t| - 1], v);
    }
  }

  lemma WithScoreAbsent(s: seq<ScoreEntry>, v: nat)
    requires forall k :: 0 <= k < |s| ==> s[k].score != v
    ensures WithScore(s, v) == []
  {
  }

  lemma WithScoreSingle(x: ScoreEntry, v: nat)
    ensures WithScore([x], v) == if x.score == v then [x] else []
  {
    assert [x][..0] == [];
  }

  /** Inserting `x` into a sorted sequence appends it to the entries of
      its own score and leaves the others' order alone. */
  lemma {:induction false} InsertIsStable(t: seq<ScoreEntry>, x: ScoreEntry, v: nat)
    requires SortedDescending(t)
    ensures WithScore(Insert(t, x), v) == WithScore(t, v) + WithScore([x], v)
    decreases |t|
  {
    if |t| > 0 {
      if t[0].score >= x.score {
        InsertIsStable(t[1..], x, v);
        InsertBehindHead(t, x, v);
      } else {
        InsertInFront(t, x, v);
      }
    }
  }

  lemma InsertBehindHead(t: seq<ScoreEntry>, x: ScoreEntry, v: nat)
    requires |t| > 0 && t[0].score >= x.score
    requires WithScore(Insert(t[1..], x), v) == WithScore(t[1..], v) + WithScore([x], v)
    ensures WithScore(Insert(t, x), v) == WithScore(t, v) + WithScore([x], v)
  {
    var head := [t[0]];
    var rest := Insert(t[1..], x);
    WithScoreAppend(head, rest, v);
    WithScoreAppend(head, t[1..], v);
    assert head + t[1..] == t;
    calc {
      WithScore(Insert(t, x), v);
      WithScore(head + rest, v);
      WithScore(head, v) + WithScore(rest, v);
      WithScore(head, v) + (WithScore(t[1..], v) + WithScore([x], v));
      (WithScore(head, v) + WithScore(t[1..], v)) + WithScore([x], v);
      WithScore(t, v) + WithScore([x], v);
    }
  }

  /** `x` scores less than every entry of sorted `t`, so `x` goes first
      and no entry of `t` shares its score. */
  lemma InsertInFront(t: seq<ScoreEntry>, x: ScoreEntry, v: nat)
    requires SortedDescending(t) && |t| > 0 && t[0].score < x.score
    ensures WithScore(Insert(t, x), v) == WithScore(t, v) + WithScore([x], v)
  {
    assert Insert(t, x) == [x] + t;
    WithScoreAppend([x], t, v);
    WithScoreSingle(x, v);
    if x.score == v {
      assert forall k :: 0 <= k < |t| ==> t[k].score <= t[0].score;
      WithScoreAbsent(t, v);
    }
  }

  /** The sort puts the highest score first. */
  lemma {:induction false} SortScoresSorted(s: seq<ScoreEntry>)
    ensures SortedDescending(SortScores(s))
    decreases |s|
  {
    if |s| > 0 {
      SortScoresSorted(s[..|s| - 1]);
      InsertKeepsSorted(SortScores(s[..|s| - 1]), s[|s| - 1]);
    }
  }

  /** The sort yields the same racers: it is a permutation. */
  lemma {:induction false} SortScoresPermutes(s: seq<ScoreEntry>)
    ensures multiset(SortScores(s)) == multiset(s)
    decreases |s|
  {
    if |s| > 0 {
      var init := s[..|s| - 1];
      var last := s[|s| - 1];
      SortScoresPermutes(init);
      assert s == init + [last];
      calc {
        multiset(SortScores(s));
        multiset(Insert(SortScores(init), last));
        multiset(SortScores(init)) + multiset{last};
        multiset(init) + multiset{last};
        multiset(init + [last]);
      }
    }
  }

  /** Racers with equal scores keep their query order. */
  lemma {:induction false} SortScoresStable(s: seq<ScoreEntry>, v: nat)
    ensures WithScore(SortScores(s), v) == WithScore(s, v)
    decreases |s|
  {
    if |s| > 0 {
      var init := s[..|s| - 1];
      SortScoresStable(init, v);
      SortScoresSorted(init);
      var last := s[|s| - 1];
      InsertIsStable(SortScores(init), last, v);
      WithScoreSingle(last, v);
      calc {
        WithScore(SortScores(s), v);
        WithScore(Insert(SortScores(init), last), v);
        WithScore(SortScores(init), v) + WithScore([last], v);
        WithScore(init, v) + WithScore([last], v);
        WithScore(s, v);
      }
    }
  }

  // ---------------------------------------------------------------------
  // The rows of the board.

  /** A row's two labels: the racer's name and its score as decimal text. */
  datatype Row = Row(name: string, score: string)

  function DigitChar(d: nat): char
    requires d < 10
  {
    "0123456789"[d]
  }

  function DigitValue(c: char): nat
  {
    if '0' <= c <= '9' then (c as int - '0' as int) else 0
  }

  /** `u32::to_string`: decimal digits, no leading zero. */
  function NatToString(n: nat): (s: string)
    ensures |s| > 0
    ensures forall k :: 0 <= k < |s| ==> '0' <= s[k] <= '9'
    ensures |s| > 1 ==> s[0] != '0'
  {
    if n < 10 then [DigitChar(n)] else NatToString(n / 10) + [DigitChar(n % 10)]
  }

  /** Reads back a string of decimal digits. */
  function ParseNat(s: string): nat
  {
    if |s| == 0 then 0 else ParseNat(s[..|s| - 1]) * 10 + DigitValue(s[|s| - 1])
  }

  lemma {:induction false} ParseNatToString(n: nat)
    ensures ParseNat(NatToString(n)) == n
  {
    if n >= 10 {
      var s := NatToString(n);
      ParseNatToString(n / 10);
      assert s[..|s| - 1] == NatToString(n / 10);
    }
  }

  /** `generate_scoreboard_ui`: one row per entry, in the order given. */
  function ScoreRows(sorted: seq<ScoreEntry>): (rows: seq<Row>)
    ensures |rows| == |sorted|
    ensures forall i :: 0 <= i < |rows| ==>
              rows[i].name == sorted[i].name && ParseNat(rows[i].score) == sorted[i].score
  {
    if |sorted| == 0 then []
    else
      ParseNatToString(sorted[0].score);
      [Row(sorted[0].name, NatToString(sorted[0].score))] + ScoreRows(sorted[1..])
  }

  /** The racers' names and scores, in query order. */
  function Entries(racers: seq<Racer>): (s: seq<ScoreEntry>)
    ensures |s| == |racers| && forall i :: 0 <= i < |racers| ==> s[i] == racers[i].entry
  {
    seq(|racers|, i requires 0 <= i < |racers| => racers[i].entry)
  }

  /** What a board shows, read back: each row's name and parsed score. */
  function RowEntries(rows: seq<Row>): (s: seq<ScoreEntry>)
    ensures |s| == |rows| && forall i :: 0 <= i < |rows| ==> s[i] == ScoreEntry(rows[i].name, ParseNat(rows[i].score))
  {
    seq(|rows|, i requires 0 <= i < |rows| => ScoreEntry(rows[i].name, ParseNat(rows[i].score)))
  }

  /** Reading the rows back gives the entries they were built from. */
  lemma RowsReadBack(sorted: seq<ScoreEntry>)
    ensures RowEntries(ScoreRows(sorted)) == sorted
  {
    var back := RowEntries(ScoreRows(sorted));
    assert |back| == |sorted|;
    forall i | 0 <= i < |sorted|
      ensures back[i] == sorted[i]
    {
    }
  }

  /** `update_scoreboard`: when the guard holds, the board's entity and its
      new rows. The rows show exactly the racers' names and scores, highest
      score first, racers with equal scores in query order. */
  function UpdateScoreboard(boards: seq<Entity>, justAdded: set<Entity>, racers: seq<Racer>): (r: Option<(Entity, seq<Row>)>)
    ensures r.Some? <==> ShouldRebuild(boards, justAdded, racers).Some?
    ensures r.Some? ==> r.value.0 == boards[0]
    ensures r.Some? ==> |r.value.1| == |racers|
    ensures r.Some? ==> forall i, j :: 0 <= i < j < |r.value.1| ==>
              ParseNat(r.value.1[i].score) >= ParseNat(r.value.1[j].score)
    ensures r.Some? ==> multiset(RowEntries(r.value.1)) == multiset(Entries(racers))
    ensures r.Some? ==> SortedDescending(RowEntries(r.value.1))
    ensures r.Some? ==> forall v :: WithScore(RowEntries(r.value.1), v) == WithScore(Entries(racers), v)
  {
    match ShouldRebuild(boards, justAdded, racers)
    case None => None
    case Some(board) =>
      var entries := Entries(racers);
      SortScoresPermutes(entries);
      SortScoresSorted(entries);
      forall v ensures WithScore(SortScores(entries), v) == WithScore(entries, v) {
        SortScoresStable(entries, v);
      }
      RowsReadBack(SortScores(entries));
      assert |SortScores(entries)| == |entries| by {
        assert |multiset(SortScores(entries))| == |multiset(entries)|;
      }
      Some((board, ScoreRows(SortScores(entries))))
  }
}
