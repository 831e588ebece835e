/**
 * The obstacle sequence of `State`: how a restart lays it out, how a physics
 * step moves and recycles it, and the scoring and collision pass over it.
 */
module Course {
  import opened Config
  import opened Obstacles

  /** The three random draws made for one new obstacle: its spacing from the previous one, then its gap. */
  datatype Draw = Draw(space: int, gapSize: int, gapY: int)
  {
    /** Each draw lies in the inclusive range `gen_range(MIN..MAX + 1)` yields. */
    predicate Valid()
    {
      MIN_SPACE_BETWEEN_OBSTACLE <= space <= MAX_SPACE_BETWEEN_OBSTACLE &&
      MIN_OBSTACLE_GAP <= gapSize <= MAX_OBSTACLE_GAP &&
      MIN_OBSTACLE_GAP_Y <= gapY <= MAX_OBSTACLE_GAP_Y
    }
  }

  predicate AllValid(draws: seq<Draw>)
  {
    forall i :: 0 <= i < |draws| ==> draws[i].Valid()
  }

  function Last(s: seq<Obstacle>): Obstacle
    requires s != []
  {
    s[|s| - 1]
  }

  /** Successive obstacles are a drawn spacing apart (hence strictly ascending in x). */
  predicate Spaced(s: seq<Obstacle>)
  {
    forall i, j :: 0 <= i < |s| && j == i + 1 && j < |s| ==>
      MIN_SPACE_BETWEEN_OBSTACLE <= s[j].x - s[i].x <= MAX_SPACE_BETWEEN_OBSTACLE
  }

  predicate GapsValid(s: seq<Obstacle>)
  {
    forall k :: 0 <= k < |s| ==> s[k].HasValidGap()
  }

  /** The shape of the sequence while a round is on (or over): what a restart builds and each step keeps. */
  predicate IsCourse(s: seq<Obstacle>)
  {
    MIN_COURSE_LENGTH <= |s| <= MAX_COURSE_LENGTH &&
    Spaced(s) && GapsValid(s) && s[0].x >= 0
  }

  /**
   * The obstacles the restart loop appends when its position counter stands
   * at `pos` and the generator will yield `draws`. The loop runs while the
   * position is below two screen widths; `draws` must be long enough.
   */
  function Build(pos: int, draws: seq<Draw>): (r: seq<Obstacle>)
    requires AllValid(draws)
    requires pos + MIN_SPACE_BETWEEN_OBSTACLE * |draws| >= COURSE_END
    decreases |draws|
    ensures r == [] <==> pos >= COURSE_END
    ensures r != [] ==> r[0].x == pos + draws[0].space && r[0].HasValidGap()
  {
    if pos >= COURSE_END then []
    else
      var d := draws[0];
      var x := pos + d.space;
      [New(x, d.gapSize, d.gapY)] + Build(x, draws[1..])
  }

  /** One turn of the restart loop: below two screen widths it appends the obstacle of the next draw. */
  lemma {:induction false} BuildUnfold(pos: int, draws: seq<Draw>, done: seq<Obstacle>)
    requires AllValid(draws)
    requires pos + MIN_SPACE_BETWEEN_OBSTACLE * |draws| >= COURSE_END
    requires pos < COURSE_END
    ensures var d := draws[0];
      done + Build(pos, draws) == (done + [New(pos + d.space, d.gapSize, d.gapY)]) + Build(pos + d.space, draws[1..])
  {
  }

  /** One obstacle per draw, until the counter reaches two screen widths. */
  lemma {:induction false} BuildLength(pos: int, draws: seq<Draw>)
    requires AllValid(draws)
    requires pos + MIN_SPACE_BETWEEN_OBSTACLE * |draws| >= COURSE_END
    decreases |draws|
    ensures |Build(pos, draws)| <= |draws|
    ensures Build(pos, draws) == [] <==> pos >= COURSE_END
    ensures forall k :: 0 <= k < |Build(pos, draws)| ==>
      Build(pos, draws)[k].gapSize == draws[k].gapSize && Build(pos, draws)[k].gapY == draws[k].gapY
  {
    if pos < COURSE_END {
      var x := pos + draws[0].space;
      BuildLength(x, draws[1..]);
      var r, rest := Build(pos, draws), Build(x, draws[1..]);
      forall k | 0 < k < |r|
        ensures r[k] == rest[k - 1] && draws[k] == draws[1..][k - 1]
      {
      }
    }
  }

  /**
   * Where the restart loop puts its obstacles, from a counter at `pos`:
   * obstacle k lies between 20(k+1) and 40(k+1) past `pos`, every one but
   * the last lies before two screen widths and the last at or beyond it.
   */
  lemma {:induction false} BuildPositions(pos: int, draws: seq<Draw>)
    requires AllValid(draws)
    requires pos + MIN_SPACE_BETWEEN_OBSTACLE * |draws| >= COURSE_END
    decreases |draws|
    ensures var r := Build(pos, draws);
      && (forall k :: 0 <= k < |r| ==>
            pos + MIN_SPACE_BETWEEN_OBSTACLE * (k + 1) <= r[k].x <= pos + MAX_SPACE_BETWEEN_OBSTACLE * (k + 1))
      && (forall k :: 0 <= k < |r| - 1 ==> r[k].x < COURSE_END)
      && (r != [] ==> Last(r).x >= COURSE_END)
  {
    if pos < COURSE_END {
      var x := pos + draws[0].space;
      BuildPositions(x, draws[1..]);
      BuildLength(x, draws[1..]);
      var r, rest := Build(pos, draws), Build(x, draws[1..]);
      forall k | 0 < k < |r|
        ensures r[k] == rest[k - 1]
      {
      }
    }
  }

  /** Successive obstacles the restart loop lays are one drawn spacing apart. */
  lemma {:induction false} BuildSpaced(pos: int, draws: seq<Draw>)
    requires AllValid(draws)
    requires pos + MIN_SPACE_BETWEEN_OBSTACLE * |draws| >= COURSE_END
    decreases |draws|
    ensures Spaced(Build(pos, draws))
  {
    if pos < COURSE_END {
      var x := pos + draws[0].space;
      BuildSpaced(x, draws[1..]);
      BuildPositions(x, draws[1..]);
      var r, rest := Build(pos, draws), Build(x, draws[1..]);
      assert r == [New(x, draws[0].gapSize, draws[0].gapY)] + rest;
      forall k | 0 < k < |r|
        ensures MIN_SPACE_BETWEEN_OBSTACLE <= r[k].x - r[k - 1].x <= MAX_SPACE_BETWEEN_OBSTACLE
      {
        assert r[k] == rest[k - 1];
        if k > 1 {
          assert r[k - 1] == rest[k - 2];
        }
      }

    }
  }

  /** A restart from position 0 with enough draws builds a course whose first obstacle is one spacing in. */
  lemma {:induction false} RestartBuildsCourse(draws: seq<Draw>)
    requires AllValid(draws) && |draws| >= MAX_COURSE_LENGTH
    ensures var r := Build(0, draws);
      && IsCourse(r)
      && MIN_SPACE_BETWEEN_OBSTACLE <= r[0].x <= MAX_SPACE_BETWEEN_OBSTACLE
      && Last(r).x >= COURSE_END
  {
    var r := Build(0, draws);
    BuildLength(0, draws);
    BuildPositions(0, draws);
    BuildSpaced(0, draws);
    assert GapsValid(r) by {
      forall k | 0 <= k < |r|
        ensures r[k].HasValidGap()
      {
        assert draws[k].Valid();
      }
    }
    // the last obstacle reaches two screen widths, at most 40 per obstacle in
    assert COURSE_END <= r[|r| - 1].x <= MAX_SPACE_BETWEEN_OBSTACLE * |r|;
    // the last but one lies before two screen widths, and at least 20 per obstacle in
    assert MIN_SPACE_BETWEEN_OBSTACLE * (|r| - 1) <= r[|r| - 2].x < COURSE_END;
  }

  /** The first loop of a physics step: every obstacle moves one column left. */
  function Shift(s: seq<Obstacle>): (r: seq<Obstacle>)
    ensures |r| == |s|
    ensures forall k :: 0 <= k < |s| ==> r[k] == s[k].FixedUpdate()
  {
    if s == [] then [] else [s[0].FixedUpdate()] + Shift(s[1..])
  }

  /** The step would not panic: there is a first obstacle, and a last one once the first is removed. */
  predicate StepDefined(s: seq<Obstacle>)
  {
    s != [] && (s[0].x - PLAYER_SPEED_X < 0 ==> |s| >= 2)
  }

  /**
   * The recycling part of a physics step, after the shift: a front obstacle
   * left of column 0 is removed and a new one is appended one drawn spacing
   * beyond the last.
   */
  function Recycle(s: seq<Obstacle>, d: Draw): (r: seq<Obstacle>)
    requires s != [] && (s[0].x < 0 ==> |s| >= 2)
    requires d.Valid()
    ensures |r| == |s|
  {
    if s[0].x < 0 then
      var rest := s[1..];
      rest + [New(Last(rest).x + d.space, d.gapSize, d.gapY)]
    else s
  }

  /** The obstacle part of a physics step. */
  function Advance(s: seq<Obstacle>, d: Draw): (r: seq<Obstacle>)
    requires StepDefined(s) && d.Valid()
    ensures |r| == |s|
  {
    Recycle(Shift(s), d)
  }

  /** Moving every obstacle left keeps the spacing and the gaps. */
  lemma {:induction false} ShiftKeepsShape(s: seq<Obstacle>)
    requires Spaced(s) && GapsValid(s)
    ensures Spaced(Shift(s)) && GapsValid(Shift(s))
  {
    var t := Shift(s);
    forall i, j | 0 <= i < |t| && j == i + 1 && j < |t|
      ensures MIN_SPACE_BETWEEN_OBSTACLE <= t[j].x - t[i].x <= MAX_SPACE_BETWEEN_OBSTACLE
    {
      assert t[j].x - t[i].x == s[j].x - s[i].x;
    }
  }

  lemma {:induction false} SpacedTail(t: seq<Obstacle>)
    requires Spaced(t) && GapsValid(t) && t != []
    ensures Spaced(t[1..]) && GapsValid(t[1..])
  {
    var u := t[1..];
    forall i, j | 0 <= i < |u| && j == i + 1 && j < |u|
      ensures MIN_SPACE_BETWEEN_OBSTACLE <= u[j].x - u[i].x <= MAX_SPACE_BETWEEN_OBSTACLE
    {
      assert u[i] == t[i + 1] && u[j] == t[j + 1];
    }
  }

  lemma {:induction false} SpacedAppend(u: seq<Obstacle>, o: Obstacle)
    requires Spaced(u) && GapsValid(u) && u != [] && o.HasValidGap()
    requires MIN_SPACE_BETWEEN_OBSTACLE <= o.x - Last(u).x <= MAX_SPACE_BETWEEN_OBSTACLE
    ensures Spaced(u + [o]) && GapsValid(u + [o])
  {
    var r := u + [o];
    forall i, j | 0 <= i < |r| && j == i + 1 && j < |r|
      ensures MIN_SPACE_BETWEEN_OBSTACLE <= r[j].x - r[i].x <= MAX_SPACE_BETWEEN_OBSTACLE
    {
      assert r[i] == u[i];
      if j < |u| {
        assert r[j] == u[j];
      }
    }
  }

  /**
   * Recycling a spaced sequence whose front is at least -1 yields a course
   * again: the front is dropped only when it is left of column 0, and the
   * new last obstacle is one drawn spacing beyond the old last.
   */
  lemma {:induction false} RecycleKeepsShape(t: seq<Obstacle>, d: Draw)
    requires MIN_COURSE_LENGTH <= |t| <= MAX_COURSE_LENGTH
    requires Spaced(t) && GapsValid(t) && t[0].x >= -1
    requires d.Valid()
    ensures var r := Recycle(t, d);
      && IsCourse(r)
      && (t[0].x >= 0 ==> r == t)
      && (t[0].x < 0 ==> r[..|r| - 1] == t[1..] && Last(r).x == Last(t).x + d.space)
  {
    if t[0].x < 0 {
      var u := t[1..];
      var o := New(Last(u).x + d.space, d.gapSize, d.gapY);
      SpacedTail(t);
      SpacedAppend(u, o);
      var r := Recycle(t, d);
      assert r == u + [o];
      assert r[..|r| - 1] == u;
      assert r[0] == t[1];
      assert t[1].x >= t[0].x + MIN_SPACE_BETWEEN_OBSTACLE;
    }
  }

  /** A physics step keeps the course shape: count, spacing, gaps, first x at least 0. */
  lemma {:induction false} AdvanceKeepsCourse(s: seq<Obstacle>, d: Draw)
    requires IsCourse(s) && d.Valid()
    ensures StepDefined(s)
    ensures IsCourse(Advance(s, d)) && |Advance(s, d)| == |s|
  {
    ShiftKeepsShape(s);
    RecycleKeepsShape(Shift(s), d);
  }

  /**
   * How a physics step moves the obstacles: when the front one stays at
   * column 0 or beyond, all move one left; otherwise the front one is
   * dropped, the others move one left, and the new last one is one drawn
   * spacing beyond where the old last one moved to.
   */
  lemma {:induction false} AdvanceMoves(s: seq<Obstacle>, d: Draw)
    requires StepDefined(s) && d.Valid()
    ensures var r := Advance(s, d);
      && (s[0].x - 1 >= 0 ==> |r| == |s| && forall k :: 0 <= k < |s| ==> r[k] == s[k].(x := s[k].x - 1))
      && (s[0].x - 1 < 0 ==>
            |r| == |s| &&
            (forall k :: 0 <= k < |s| - 1 ==> r[k] == s[k + 1].(x := s[k + 1].x - 1)) &&
            Last(r).x == Last(s).x - 1 + d.space &&
            Last(r).gapSize == d.gapSize && Last(r).gapY == d.gapY)
  {
    var t := Shift(s);
    var r := Advance(s, d);
    if t[0].x < 0 {
      forall k | 0 <= k < |s| - 1
        ensures r[k] == s[k + 1].(x := s[k + 1].x - 1)
      {
        assert r[k] == t[k + 1];
      }
    }
  }

  /** The player in row `py` at column `px` gets through obstacle `o`. */
  predicate Scores(o: Obstacle, px: int, py: int)
  {
    o.x == px && o.LetsThrough(py)
  }

  /** The player in row `py` at column `px` hits obstacle `o`. */
  predicate Hits(o: Obstacle, px: int, py: int)
  {
    o.x == px && !o.LetsThrough(py)
  }

  /** The points the scoring pass adds over the first `n` obstacles: one per aligned obstacle whose gap holds the player. */
  function PassedUpTo(s: seq<Obstacle>, n: nat, px: int, py: int): nat
    requires n <= |s|
  {
    if n == 0 then 0
    else PassedUpTo(s, n - 1, px, py) + if Scores(s[n - 1], px, py) then 1 else 0
  }

  /** The scoring pass over the first `n` obstacles ends the round: one of them is aligned and does not hold the player. */
  predicate CrashedUpTo(s: seq<Obstacle>, n: nat, px: int, py: int)
    requires n <= |s|
  {
    n > 0 && (CrashedUpTo(s, n - 1, px, py) || Hits(s[n - 1], px, py))
  }

  /** The points one scoring pass over `s` adds: one per obstacle at column `px` that lets row `py` through. */
  function Passed(s: seq<Obstacle>, px: int, py: int): (r: nat)
    ensures r > 0 <==> exists k :: 0 <= k < |s| && Scores(s[k], px, py)
  {
    PassedMeansScoring(s, |s|, px, py);
    PassedUpTo(s, |s|, px, py)
  }

  /** One scoring pass over `s` ends the round: some obstacle at column `px` blocks row `py`. */
  predicate Crashed(s: seq<Obstacle>, px: int, py: int)
    ensures Crashed(s, px, py) <==> exists k :: 0 <= k < |s| && Hits(s[k], px, py)
  {
    CrashedMeansHit(s, |s|, px, py);
    CrashedUpTo(s, |s|, px, py)
  }

  lemma {:induction false} PassedMeansScoring(s: seq<Obstacle>, n: nat, px: int, py: int)
    requires n <= |s|
    ensures PassedUpTo(s, n, px, py) > 0 <==> exists k :: 0 <= k < n && Scores(s[k], px, py)
  {
    if n > 0 {
      PassedMeansScoring(s, n - 1, px, py);
    }
  }

  lemma {:induction false} CrashedMeansHit(s: seq<Obstacle>, n: nat, px: int, py: int)
    requires n <= |s|
    ensures CrashedUpTo(s, n, px, py) <==> exists k :: 0 <= k < n && Hits(s[k], px, py)
  {
    if n > 0 {
      CrashedMeansHit(s, n - 1, px, py);
    }
  }

  /** Along a spaced sequence x grows by at least the minimum spacing per position. */
  lemma {:induction false} SpacedAscending(s: seq<Obstacle>, i: int, j: int)
    requires Spaced(s) && 0 <= i < j < |s|
    ensures s[i].x + MIN_SPACE_BETWEEN_OBSTACLE * (j - i) <= s[j].x
  {
    if j > i + 1 {
      SpacedAscending(s, i, j - 1);
    }
  }

  /** In a spaced sequence at most one obstacle stands in any one column. */
  lemma {:induction false} AtMostOneAligned(s: seq<Obstacle>, px: int, i: int, j: int)
    requires Spaced(s) && 0 <= i < |s| && 0 <= j < |s|
    requires s[i].x == px && s[j].x == px
    ensures i == j
  {
    if i < j {
      SpacedAscending(s, i, j);
    } else if j < i {
      SpacedAscending(s, j, i);
    }
  }

  /**
   * On a spaced sequence one scoring pass adds at most one point, and it
   * never both scores and crashes.
   */
  lemma {:induction false} OneOutcomePerPass(s: seq<Obstacle>, n: nat, px: int, py: int)
    requires Spaced(s) && n <= |s|
    ensures PassedUpTo(s, n, px, py) <= 1
    ensures !(PassedUpTo(s, n, px, py) > 0 && CrashedUpTo(s, n, px, py))
  {
    if n > 0 {
      OneOutcomePerPass(s, n - 1, px, py);
      PassedMeansScoring(s, n - 1, px, py);
      CrashedMeansHit(s, n - 1, px, py);
      if s[n - 1].x == px {
        if k :| 0 <= k < n - 1 && s[k].x == px {
          AtMostOneAligned(s, px, k, n - 1);
        }
      }
    }
  }
}
