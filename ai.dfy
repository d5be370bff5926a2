/**
 * The computer opponent's move choice.  Each of the four directions except
 * the reverse of the current one is a candidate; a candidate whose next cell
 * is off the grid or on either snake is pruned; the survivors are scored and
 * the first one with the highest score is taken.
 *
 * The game scores a move as `-dist + 0.5 * wallDist + 0.3 * openSpaces + 2 * rand`.
 * That score is kept here multiplied by `10 * RAND_SCALE`, which makes every
 * term an integer and leaves every comparison between scores as it was:
 * `RAND_SCALE * (5 * wallDist + 3 * openSpaces - 10 * dist) + 20 * u`.
 */
module Ai {
  import opened Geometry
  import opened Randomness
  import opened Foods
  import opened Snakes

  datatype Option<T> = None | Some(value: T)

  function Abs(n: int): (r: nat)
  {
    if n < 0 then -n else n
  }

  function Manhattan(a: Pos, b: Pos): (r: nat)
  {
    Abs(a.x - b.x) + Abs(a.y - b.y)
  }

  // ---------------------------------------------------------------------
  // Distance to the nearest food
  // ---------------------------------------------------------------------

  /**
   * The running minimum of the Manhattan distances to `foods`, in scan order;
   * `None` stands for the initial `Infinity` that survives an empty list.
   */
  function NearestDist(foods: seq<Food>, p: Pos): (r: Option<nat>)
    decreases |foods|
  {
    if |foods| == 0 then None
    else
      var rest := NearestDist(foods[..|foods| - 1], p);
      var d := Manhattan(foods[|foods| - 1].pos, p);
      if rest.None? || d < rest.value then Some(d) else rest
  }

  /** The scan finds the least Manhattan distance to any food, and finds nothing only when there is no food. */
  lemma {:induction false} NearestDistIsMinimum(foods: seq<Food>, p: Pos)
    ensures NearestDist(foods, p).None? <==> |foods| == 0
    ensures NearestDist(foods, p).Some? ==>
      && (forall f :: f in foods ==> NearestDist(foods, p).value <= Manhattan(f.pos, p))
      && (exists f :: f in foods && NearestDist(foods, p).value == Manhattan(f.pos, p))
    decreases |foods|
  {
    if |foods| > 0 {
      var init := foods[..|foods| - 1];
      var last := foods[|foods| - 1];
      assert foods == init + [last];
      NearestDistIsMinimum(init, p);
      forall f | f in foods
        ensures f in init || f == last
      {
      }
    }
  }

  method NearestFoodDist(foods: seq<Food>, p: Pos) returns (nearest: Option<nat>)
    ensures nearest == NearestDist(foods, p)
  {
    nearest := None;
    var i := 0;
    while i < |foods|
      invariant 0 <= i <= |foods|
      invariant nearest == NearestDist(foods[..i], p)
    {
      var dist := Manhattan(foods[i].pos, p);
      if nearest.None? || dist < nearest.value {
        nearest := Some(dist);
      }
      assert foods[..i + 1][..i] == foods[..i];
      i := i + 1;
    }
    assert foods[..i] == foods;
  }

  // ---------------------------------------------------------------------
  // Distance to the nearest wall
  // ---------------------------------------------------------------------

  /** The distance from `c` to the nearest wall: the least of the four gaps to the edges. */
  function WallDist(c: Pos): (w: int)
    ensures w <= c.x && w <= c.y && w <= COLS - 1 - c.x && w <= ROWS - 1 - c.y
    ensures w == c.x || w == c.y || w == COLS - 1 - c.x || w == ROWS - 1 - c.y
    ensures InBounds(c) ==> 0 <= w < COLS / 2
  {
    var a := if c.x < c.y then c.x else c.y;
    var b := if COLS - 1 - c.x < ROWS - 1 - c.y then COLS - 1 - c.x else ROWS - 1 - c.y;
    if a < b then a else b
  }

  // ---------------------------------------------------------------------
  // Free cells in the 5 x 5 window around a cell
  // ---------------------------------------------------------------------

  /** The window spans offsets `-REACH .. REACH` on each axis. */
  const REACH: int := 2

  /** A cell counts as open when it is on the grid and not on the AI snake's own body. */
  predicate Open(c: Pos, body: seq<Pos>)
  {
    InBounds(c) && c !in body
  }

  /** Open cells `(cx, ny + dy)` for `-2 <= dy < hi`. */
  function ColumnCount(cx: int, ny: int, body: seq<Pos>, hi: int): (r: nat)
    requires -REACH <= hi <= REACH + 1
    decreases hi + REACH
  {
    if hi == -REACH then 0
    else ColumnCount(cx, ny, body, hi - 1) + (if Open(Pos(cx, ny + hi - 1), body) then 1 else 0)
  }

  /** Open cells `(nx + dx, ny + dy)` for `-2 <= dx < hi` and `-2 <= dy <= 2`. */
  function WindowCount(nx: int, ny: int, body: seq<Pos>, hi: int): (r: nat)
    requires -REACH <= hi <= REACH + 1
    decreases hi + REACH
  {
    if hi == -REACH then 0
    else WindowCount(nx, ny, body, hi - 1) + ColumnCount(nx + hi - 1, ny, body, REACH + 1)
  }

  function OpenCount(c: Pos, body: seq<Pos>): (r: nat)
  {
    WindowCount(c.x, c.y, body, REACH + 1)
  }

  lemma {:induction false} ColumnCountBound(cx: int, ny: int, body: seq<Pos>, hi: int)
    requires -REACH <= hi <= REACH + 1
    ensures ColumnCount(cx, ny, body, hi) <= hi + REACH
    decreases hi + REACH
  {
    if hi > -REACH {
      ColumnCountBound(cx, ny, body, hi - 1);
    }
  }

  lemma {:induction false} WindowCountBound(nx: int, ny: int, body: seq<Pos>, hi: int)
    requires -REACH <= hi <= REACH + 1
    ensures WindowCount(nx, ny, body, hi) <= 5 * (hi + REACH)
    decreases hi + REACH
  {
    if hi > -REACH {
      WindowCountBound(nx, ny, body, hi - 1);
      ColumnCountBound(nx + hi - 1, ny, body, REACH + 1);
    }
  }

  /** At most the 25 cells of the window are open. */
  lemma OpenCountBound(c: Pos, body: seq<Pos>)
    ensures OpenCount(c, body) <= 25
  {
    WindowCountBound(c.x, c.y, body, REACH + 1);
  }

  /** The inner loop of the window count: the open cells of column `cx`, rows `ny - 2 .. ny + 2`. */
  method OpenInColumn(cx: int, ny: int, body: seq<Pos>) returns (count: nat)
    ensures count == ColumnCount(cx, ny, body, REACH + 1)
  {
    count := 0;
    var dy := -REACH;
    while dy <= REACH
      invariant -REACH <= dy <= REACH + 1
      invariant count == ColumnCount(cx, ny, body, dy)
    {
      var cell := Pos(cx, ny + dy);
      if InBounds(cell) {
        var taken := Occupies(body, cell);
        if !taken {
          count := count + 1;
        }
      }
      dy := dy + 1;
    }
  }

  /** The double loop over `dx, dy` in `[-2, 2]` that counts the open cells around `c`. */
  method OpenSpaces(c: Pos, body: seq<Pos>) returns (openSpaces: nat)
    ensures openSpaces == OpenCount(c, body)
    ensures openSpaces <= 25
  {
    OpenCountBound(c, body);
    openSpaces := 0;
    var dx := -REACH;
    while dx <= REACH
      invariant -REACH <= dx <= REACH + 1
      invariant openSpaces == WindowCount(c.x, c.y, body, dx)
    {
      var column := OpenInColumn(c.x + dx, c.y, body);
      openSpaces := openSpaces + column;
      dx := dx + 1;
    }
  }

  // ---------------------------------------------------------------------
  // Candidates, scores and the choice
  // ---------------------------------------------------------------------

  /**
   * A direction survives pruning when it is not the reverse of `dir` and the
   * cell it leads to is on the grid and on neither the AI body nor `other`
   * (the opponent's body, empty when there is no opponent).
   */
  predicate Candidate(d: Direction, dir: Direction, body: seq<Pos>, other: seq<Pos>)
    requires |body| >= 1
  {
    var cell := Step(body[0], d);
    !IsReverse(d, dir) && InBounds(cell) && cell !in body && cell !in other
  }

  /** The survivors among `ds`, in order. */
  function Survivors(ds: seq<Direction>, dir: Direction, body: seq<Pos>, other: seq<Pos>): (r: seq<Direction>)
    requires |body| >= 1
    decreases |ds|
  {
    if ds == [] then []
    else
      var d := ds[|ds| - 1];
      Survivors(ds[..|ds| - 1], dir, body, other) + (if Candidate(d, dir, body, other) then [d] else [])
  }

  lemma {:induction false} SurvivorsAreCandidates(ds: seq<Direction>, dir: Direction, body: seq<Pos>, other: seq<Pos>)
    requires |body| >= 1
    ensures forall d :: d in Survivors(ds, dir, body, other) <==> d in ds && Candidate(d, dir, body, other)
    decreases |ds|
  {
    if ds != [] {
      var init := ds[..|ds| - 1];
      assert ds == init + [ds[|ds| - 1]];
      SurvivorsAreCandidates(init, dir, body, other);
    }
  }

  /** The score of moving to `cell`, before the random term; `None` is `-Infinity` (no food at all). */
  function BaseScore(cell: Pos, body: seq<Pos>, foods: seq<Food>): (r: Option<int>)
  {
    match NearestDist(foods, cell)
    case None => None
    case Some(dist) => Some(RAND_SCALE * (5 * WallDist(cell) + 3 * OpenCount(cell, body) - 10 * dist))
  }

  /** `BaseScore` for the AI snake with body `body`, as a function of the cell. */
  function BaseScoreOf(body: seq<Pos>, foods: seq<Food>): (r: Pos -> Option<int>)
  {
    c => BaseScore(c, body, foods)
  }

  /** A cell has a finite score exactly when there is some food to aim for. */
  lemma BaseScoreFinite(cell: Pos, body: seq<Pos>, foods: seq<Food>)
    ensures BaseScore(cell, body, foods).None? <==> |foods| == 0
  {
    NearestDistIsMinimum(foods, cell);
  }

  /** Adding the random term `2 * rand`, scaled: `-Infinity` stays `-Infinity`. */
  function Jittered(base: Option<int>, u: Draw): (r: Option<int>)
  {
    match base
    case None => None
    case Some(b) => Some(b + 20 * u)
  }

  /**
   * The scores of the survivors `sv` of a snake whose head is at `head`, when
   * a cell `c` has base score `baseOf(c)`; the k-th survivor takes draw `cursor + k`.
   */
  function Scores(sv: seq<Direction>, head: Pos, baseOf: Pos -> Option<int>, random: nat -> Draw, cursor: nat): (r: seq<Option<int>>)
    decreases |sv|
  {
    if sv == [] then []
    else
      var k := |sv| - 1;
      Scores(sv[..k], head, baseOf, random, cursor) + [Jittered(baseOf(Step(head, sv[k])), random(cursor + k))]
  }

  lemma {:induction false} ScoresLength(sv: seq<Direction>, head: Pos, baseOf: Pos -> Option<int>, random: nat -> Draw, cursor: nat)
    ensures |Scores(sv, head, baseOf, random, cursor)| == |sv|
    decreases |sv|
  {
    if sv != [] {
      ScoresLength(sv[..|sv| - 1], head, baseOf, random, cursor);
    }
  }

  /** Extending the candidate list by one direction extends its survivors `sv` by it exactly when it survives. */
  lemma SurvivorsSnoc(ds: seq<Direction>, i: nat, sv: seq<Direction>, dir: Direction, body: seq<Pos>, other: seq<Pos>)
    requires i < |ds| && |body| >= 1
    requires sv == Survivors(ds[..i], dir, body, other)
    ensures Candidate(ds[i], dir, body, other) ==> sv + [ds[i]] == Survivors(ds[..i + 1], dir, body, other)
    ensures !Candidate(ds[i], dir, body, other) ==> sv == Survivors(ds[..i + 1], dir, body, other)
  {
    assert ds[..i + 1][..i] == ds[..i];
  }

  /** One more survivor `d`, scored `score` with the next draw, extends the scores `sc` of `sv` by that score. */
  lemma ScoresSnoc(sv: seq<Direction>, sc: seq<Option<int>>, d: Direction, score: Option<int>,
                   head: Pos, baseOf: Pos -> Option<int>, random: nat -> Draw, cursor: nat)
    requires sc == Scores(sv, head, baseOf, random, cursor)
    requires score == Jittered(baseOf(Step(head, d)), random(cursor + |sv|))
    ensures sc + [score] == Scores(sv + [d], head, baseOf, random, cursor)
  {
    assert (sv + [d])[..|sv|] == sv;
  }

  /**
   * When every cell scores finitely exactly if `finite`, some survivor has a
   * finite score exactly when there is a survivor and `finite` holds.
   */
  lemma {:induction false} ScoresFinite(sv: seq<Direction>, head: Pos, baseOf: Pos -> Option<int>, random: nat -> Draw,
                                        cursor: nat, finite: bool)
    requires forall c :: baseOf(c).Some? <==> finite
    ensures var sc := Scores(sv, head, baseOf, random, cursor);
      |sc| == |sv| && (NoneScored(sc) <==> |sv| == 0 || !finite)
    decreases |sv|
  {
    if sv != [] {
      var k := |sv| - 1;
      var init := Scores(sv[..k], head, baseOf, random, cursor);
      var s := Jittered(baseOf(Step(head, sv[k])), random(cursor + k));
      ScoresFinite(sv[..k], head, baseOf, random, cursor, finite);
      assert Scores(sv, head, baseOf, random, cursor) == init + [s];
      if finite {
        assert (init + [s])[k] == s;
      } else {
        NoneScoredAppend(init, s);
      }
    }
  }

  /** `score > bestScore`, where `None` is `-Infinity` on both sides. */
  predicate Beats(score: Option<int>, best: Option<int>)
  {
    score.Some? && (best.None? || score.value > best.value)
  }

  /** No survivor has a finite score (there are no survivors, or no food to aim for). */
  predicate NoneScored(scores: seq<Option<int>>)
  {
    forall j :: 0 <= j < |scores| ==> scores[j].None?
  }

  /** Position `m` holds the highest score, and no earlier position reaches it. */
  predicate IsFirstBest(scores: seq<Option<int>>, m: int)
  {
    && 0 <= m < |scores|
    && scores[m].Some?
    && (forall j :: 0 <= j < |scores| && scores[j].Some? ==> scores[j].value <= scores[m].value)
    && (forall j :: 0 <= j < m && scores[j].Some? ==> scores[j].value < scores[m].value)
  }

  /** The first best position is determined by the scores. */
  lemma FirstBestUnique(scores: seq<Option<int>>, m: int, n: int)
    requires IsFirstBest(scores, m) && IsFirstBest(scores, n)
    ensures m == n
  {
  }

  /** Whenever some score is finite, a first best position exists. */
  lemma {:induction false} FirstBestExists(scores: seq<Option<int>>)
    requires !NoneScored(scores)
    ensures exists m :: IsFirstBest(scores, m)
    decreases |scores|
  {
    var k := |scores| - 1;
    var init := scores[..k];
    if NoneScored(init) {
      assert scores[k].Some?;
      assert IsFirstBest(scores, k);
    } else {
      FirstBestExists(init);
      var m :| IsFirstBest(init, m);
      if Beats(scores[k], scores[m]) {
        assert IsFirstBest(scores, k);
      } else {
        assert IsFirstBest(scores, m);
      }
    }
  }

  /** Appending a score to a list with a first best keeps it or moves it to the new score. */
  lemma FirstBestAppend(scores: seq<Option<int>>, m: int, s: Option<int>)
    requires IsFirstBest(scores, m)
    ensures Beats(s, scores[m]) ==> IsFirstBest(scores + [s], |scores|)
    ensures !Beats(s, scores[m]) ==> IsFirstBest(scores + [s], m)
  {
  }

  /** Appending a score to a list with no finite score. */
  lemma NoneScoredAppend(scores: seq<Option<int>>, s: Option<int>)
    requires NoneScored(scores)
    ensures s.Some? ==> IsFirstBest(scores + [s], |scores|)
    ensures s.None? ==> NoneScored(scores + [s])
  {
  }

  /** What `aiDecide` chooses from the survivors `sv` with scores `sc`, starting from `dir`. */
  predicate ChosenBy(sv: seq<Direction>, sc: seq<Option<int>>, dir: Direction, best: Direction)
  {
    && (NoneScored(sc) ==> best == dir)
    && (!NoneScored(sc) ==> exists m :: 0 <= m < |sv| && IsFirstBest(sc, m) && best == sv[m])
  }

  /**
   * What `aiDecide` requests for a snake heading `dir` with body `body`
   * against an opponent covering `other`, with the draws from `cursor`: the
   * first best survivor, or `dir` when none scores; never the reverse of
   * `dir`, and either `dir` or a safe candidate.
   */
  predicate AiChoice(dir: Direction, body: seq<Pos>, other: seq<Pos>, foods: seq<Food>,
                     random: nat -> Draw, cursor: nat, choice: Direction)
    requires |body| >= 1
  {
    var sv := Survivors(AllDirections, dir, body, other);
    && ChosenBy(sv, Scores(sv, body[0], BaseScoreOf(body, foods), random, cursor), dir, choice)
    && !IsReverse(dir, choice)
    && (choice == dir || Candidate(choice, dir, body, other))
  }

  /** The pruning test for candidate `d`: reverse, off the grid, or on either body. */
  method Blocked(d: Direction, dir: Direction, body: seq<Pos>, other: seq<Pos>) returns (blocked: bool)
    requires |body| >= 1
    ensures blocked <==> !Candidate(d, dir, body, other)
  {
    var cell := Step(body[0], d);
    if IsReverse(d, dir) || !InBounds(cell) {
      return true;
    }
    blocked := Occupies(body, cell);
    if !blocked {
      blocked := Occupies(other, cell);
    }
  }

  /** The score of one survivor leading to `cell`, with draw `u` for the random term. */
  method ScoreCandidate(cell: Pos, body: seq<Pos>, foods: seq<Food>, u: Draw, ghost baseOf: Pos -> Option<int>)
    returns (score: Option<int>)
    requires forall c {:trigger BaseScore(c, body, foods)} :: baseOf(c) == BaseScore(c, body, foods)
    ensures score == Jittered(baseOf(cell), u)
    ensures score.None? <==> |foods| == 0
  {
    assert baseOf(cell) == BaseScore(cell, body, foods);
    NearestDistIsMinimum(foods, cell);
    var nearest := NearestFoodDist(foods, cell);
    var wallDist := WallDist(cell);
    var openSpaces := OpenSpaces(cell, body);
    var base: Option<int> := if nearest.None? then None
      else Some(RAND_SCALE * (5 * wallDist + 3 * openSpaces - 10 * nearest.value));
    score := Jittered(base, u);
  }

  /**
   * The state of the choice loop after the first `i` candidates of `ds`:
   * `sv` are their survivors and `sc` the survivors' scores, one draw was used
   * per survivor, and `best` with `bestScore` is the first best survivor so
   * far, at index `bestIdx` (`dir` and `-Infinity` while none scored finitely).
   */
  ghost predicate Tracks(ds: seq<Direction>, i: nat, body: seq<Pos>, dir: Direction, other: seq<Pos>,
                         baseOf: Pos -> Option<int>, random: nat -> Draw, cursor: nat,
                         best: Direction, bestScore: Option<int>, next: nat,
                         sv: seq<Direction>, sc: seq<Option<int>>, bestIdx: int)
    requires |body| >= 1 && i <= |ds|
  {
    && sv == Survivors(ds[..i], dir, body, other)
    && sc == Scores(sv, body[0], baseOf, random, cursor)
    && next == cursor + |sv| && |sc| == |sv|
    && (bestScore.None? ==> best == dir && NoneScored(sc))
    && (bestScore.Some? ==> IsFirstBest(sc, bestIdx) && best == sv[bestIdx] && bestScore == sc[bestIdx])
  }

  /** A pruned candidate changes nothing. */
  lemma TrackSkip(ds: seq<Direction>, i: nat, body: seq<Pos>, dir: Direction, other: seq<Pos>,
                  baseOf: Pos -> Option<int>, random: nat -> Draw, cursor: nat,
                  best: Direction, bestScore: Option<int>, next: nat,
                  sv: seq<Direction>, sc: seq<Option<int>>, bestIdx: int)
    requires |body| >= 1 && i < |ds|
    requires Tracks(ds, i, body, dir, other, baseOf, random, cursor, best, bestScore, next, sv, sc, bestIdx)
    requires !Candidate(ds[i], dir, body, other)
    ensures Tracks(ds, i + 1, body, dir, other, baseOf, random, cursor, best, bestScore, next, sv, sc, bestIdx)
  {
    SurvivorsSnoc(ds, i, sv, dir, body, other);
  }

  /**
   * A surviving candidate takes the next draw and is appended to the
   * survivors with its score; it becomes the best exactly when it beats the
   * best so far.
   */
  lemma TrackScore(ds: seq<Direction>, i: nat, body: seq<Pos>, dir: Direction, other: seq<Pos>,
                   baseOf: Pos -> Option<int>, random: nat -> Draw, cursor: nat,
                   best: Direction, bestScore: Option<int>, next: nat,
                   sv: seq<Direction>, sc: seq<Option<int>>, bestIdx: int, score: Option<int>)
    returns (sv': seq<Direction>, sc': seq<Option<int>>, bestIdx': int)
    requires |body| >= 1 && i < |ds|
    requires Tracks(ds, i, body, dir, other, baseOf, random, cursor, best, bestScore, next, sv, sc, bestIdx)
    requires Candidate(ds[i], dir, body, other)
    requires score == Jittered(baseOf(Step(body[0], ds[i])), random(next))
    ensures Beats(score, bestScore) ==>
      Tracks(ds, i + 1, body, dir, other, baseOf, random, cursor, ds[i], score, next + 1, sv', sc', bestIdx')
    ensures !Beats(score, bestScore) ==>
      Tracks(ds, i + 1, body, dir, other, baseOf, random, cursor, best, bestScore, next + 1, sv', sc', bestIdx')
  {
    SurvivorsSnoc(ds, i, sv, dir, body, other);
    ScoresSnoc(sv, sc, ds[i], score, body[0], baseOf, random, cursor);
    if bestScore.None? {
      NoneScoredAppend(sc, score);
    } else {
      FirstBestAppend(sc, bestIdx, score);
    }
    sv' := sv + [ds[i]];
    sc' := sc + [score];
    bestIdx' := if Beats(score, bestScore) then |sv| else bestIdx;
  }

  /** After the last candidate the loop state is the choice `aiDecide` makes. */
  lemma TrackDone(ds: seq<Direction>, body: seq<Pos>, dir: Direction, other: seq<Pos>,
                  baseOf: Pos -> Option<int>, random: nat -> Draw, cursor: nat,
                  best: Direction, bestScore: Option<int>, next: nat,
                  sv: seq<Direction>, sc: seq<Option<int>>, bestIdx: int)
    requires |body| >= 1
    requires Tracks(ds, |ds|, body, dir, other, baseOf, random, cursor, best, bestScore, next, sv, sc, bestIdx)
    ensures var sv := Survivors(ds, dir, body, other);
      next == cursor + |sv| && ChosenBy(sv, Scores(sv, body[0], baseOf, random, cursor), dir, best)
    ensures best == dir || Candidate(best, dir, body, other)
  {
    assert ds[..|ds|] == ds;
    SurvivorsAreCandidates(ds, dir, body, other);
    if bestScore.Some? {
      assert best in sv;
    }
  }

  /**
   * The loop of `aiDecide` over the candidate directions `ds` for a snake
   * with body `body` heading `dir`.  Returns the chosen direction and the
   * cursor after one draw per survivor.  With no finitely scored survivor
   * the choice stays `dir`; otherwise it is the first survivor with the
   * highest score.  The scores are stated through `baseOf`, which agrees
   * with `BaseScore` on every cell.
   */
  method ChooseAmong(ds: seq<Direction>, body: seq<Pos>, dir: Direction, other: seq<Pos>, foods: seq<Food>,
                     random: nat -> Draw, cursor: nat, ghost baseOf: Pos -> Option<int>) returns (best: Direction, next: nat)
    requires |body| >= 1
    requires forall c {:trigger BaseScore(c, body, foods)} :: baseOf(c) == BaseScore(c, body, foods)
    ensures var sv := Survivors(ds, dir, body, other);
      next == cursor + |sv| && ChosenBy(sv, Scores(sv, body[0], baseOf, random, cursor), dir, best)
    ensures best == dir || Candidate(best, dir, body, other)
  {
    var head := body[0];
    best := dir;
    var bestScore: Option<int> := None;
    next := cursor;
    ghost var sv: seq<Direction> := [];
    ghost var sc: seq<Option<int>> := [];
    ghost var bestIdx := -1;
    var i := 0;
    while i < |ds|
      invariant 0 <= i <= |ds|
      invariant Tracks(ds, i, body, dir, other, baseOf, random, cursor, best, bestScore, next, sv, sc, bestIdx)
    {
      var d := ds[i];
      var blocked := Blocked(d, dir, body, other);
      if blocked {
        TrackSkip(ds, i, body, dir, other, baseOf, random, cursor, best, bestScore, next, sv, sc, bestIdx);
      } else {
        var score := ScoreCandidate(Step(head, d), body, foods, random(next), baseOf);
        sv, sc, bestIdx := TrackScore(ds, i, body, dir, other, baseOf, random, cursor,
                                      best, bestScore, next, sv, sc, bestIdx, score);
        next := next + 1;
        if Beats(score, bestScore) {
          bestScore := score;
          best := d;
        }
      }
      i := i + 1;
    }
    TrackDone(ds, body, dir, other, baseOf, random, cursor, best, bestScore, next, sv, sc, bestIdx);
  }

  /**
   * `aiDecide`: choose a direction for `ai` against `opponent` (the other
   * snake, if any) and request it with `SetDirection`.  Returns the cursor
   * after the draws used.
   */
  method AiDecide(ai: Snake, opponent: Snake?, foods: seq<Food>, random: nat -> Draw, cursor: nat) returns (next: nat)
    requires ai.Valid()
    modifies ai`nextDir
    ensures var other := if opponent == null then [] else opponent.body;
      var sv := Survivors(AllDirections, ai.dir, ai.body, other);
      var sc := Scores(sv, ai.body[0], BaseScoreOf(ai.body, foods), random, cursor);
      && next == cursor + |sv|
      && ChosenBy(sv, sc, ai.dir, ai.nextDir)
      && (NoneScored(sc) <==> |sv| == 0 || |foods| == 0)
      && !IsReverse(ai.dir, ai.nextDir)
      && (ai.nextDir == ai.dir || Candidate(ai.nextDir, ai.dir, ai.body, other))
  {
    var other := if opponent == null then [] else opponent.body;
    ghost var sv := Survivors(AllDirections, ai.dir, ai.body, other);
    var best;
    best, next := ChooseAmong(AllDirections, ai.body, ai.dir, other, foods, random, cursor, BaseScoreOf(ai.body, foods));
    forall c | true
      ensures BaseScoreOf(ai.body, foods)(c).Some? <==> |foods| > 0
    {
      BaseScoreFinite(c, ai.body, foods);
    }
    ScoresFinite(sv, ai.body[0], BaseScoreOf(ai.body, foods), random, cursor, |foods| > 0);
    ReverseIsOpposite(ai.dir, best);
    ReverseIsOpposite(ai.dir, ai.dir);
    ai.SetDirection(best);
  }
}
