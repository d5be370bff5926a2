/**
 * The game session: the snakes of the current round, the foods on the
 * grid, the food and round scores, the tick interval, and the cursor into
 * the stream of draws that stands for `Math.random()`.  A tick runs the AI,
 * moves the snakes, lets them eat, kills the crashed ones, may add a food,
 * and judges the round.
 */
module Game {
  import opened Geometry
  import opened Randomness
  import opened Foods
  import opened Spawner
  import opened Snakes
  import opened Ai
  import opened Rules

  /** Foods spawned at the start of a round. */
  const INITIAL_FOODS: nat := 3
  /** Below this many foods a tick always adds one. */
  const MIN_FOODS: nat := 2
  /** Below this many foods a tick may add one. */
  const FOOD_CAP: nat := 5

  /** The extra-food test: the draw falls below 0.02. */
  predicate ExtraFoodDrawn(u: Draw)
  {
    100 * u < 2 * RAND_SCALE
  }

  /** The cells covered by the bodies of `ss`. */
  function BodyCellsOf(ss: seq<Snake>): (r: set<Pos>)
    reads ss`body
  {
    if ss == [] then {} else BodyCellsOf(ss[..|ss| - 1]) + Elements(ss[|ss| - 1].body)
  }

  function Elements(cells: seq<Pos>): (r: set<Pos>)
  {
    set p | p in cells
  }

  /** A cell is covered exactly when it lies on the body of one of `ss`. */
  lemma {:induction false} BodyCellsOfMembers(ss: seq<Snake>, p: Pos)
    ensures p in BodyCellsOf(ss) <==> exists k :: 0 <= k < |ss| && p in ss[k].body
  {
    if ss != [] {
      var init := ss[..|ss| - 1];
      BodyCellsOfMembers(init, p);
      if p in BodyCellsOf(ss) && p !in Elements(ss[|ss| - 1].body) {
        var k :| 0 <= k < |init| && p in init[k].body;
        assert ss[k] == init[k];
      }
      if exists k :: 0 <= k < |ss| && p in ss[k].body {
        var k :| 0 <= k < |ss| && p in ss[k].body;
        if k < |init| {
          assert init[k] == ss[k];
        }
      }
    }
  }

  /** Whether each of `ss` is alive, in order. */
  function AliveOf(ss: seq<Snake>): (r: seq<bool>)
    reads ss`alive
    ensures |r| == |ss| && forall k :: 0 <= k < |ss| ==> r[k] == ss[k].alive
  {
    if ss == [] then [] else AliveOf(ss[..|ss| - 1]) + [ss[|ss| - 1].alive]
  }

  /** The head of a live snake, or `None` for a dead one: what the eating phase looks at. */
  function HeadOf(s: Snake): (r: Option<Pos>)
    reads s`alive, s`body
  {
    if s.alive && |s.body| > 0 then Some(s.body[0]) else None
  }

  function HeadsOf(ss: seq<Snake>): (r: seq<Option<Pos>>)
    reads ss`alive, ss`body
    ensures |r| == |ss| && forall k :: 0 <= k < |ss| ==> r[k] == HeadOf(ss[k])
  {
    if ss == [] then [] else HeadsOf(ss[..|ss| - 1]) + [HeadOf(ss[|ss| - 1])]
  }

  /** The growth owed to each of `ss` and the points in its score slot. */
  function GainsOf(ss: seq<Snake>, scores: seq<nat>): (r: seq<Gain>)
    requires |ss| <= |scores|
    reads ss`growCount
    ensures |r| == |ss| && forall k :: 0 <= k < |ss| ==> r[k] == Gain(ss[k].growCount, scores[k])
  {
    if ss == [] then [] else GainsOf(ss[..|ss| - 1], scores) + [Gain(ss[|ss| - 1].growCount, scores[|ss| - 1])]
  }

  /**
   * The eating phase of a tick on values: each of the first `n` snakes in
   * turn, if it is alive, scans the whole food list from the back with its
   * head.  `heads` and `gains` hold one entry per snake; the result is the
   * table and the gains of those `n` snakes after all of them.
   */
  function Feast(t: Table, heads: seq<Option<Pos>>, gains: seq<Gain>, n: nat, bodies: set<Pos>, spawn: (set<Pos>, nat) -> (Food, nat)): (r: (Table, seq<Gain>))
    requires n <= |heads| == |gains|
    ensures |r.1| == n
    decreases n
  {
    if n == 0 then (t, [])
    else
      var prev := Feast(t, heads, gains, n - 1, bodies, spawn);
      match heads[n - 1]
      case None => (prev.0, prev.1 + [gains[n - 1]])
      case Some(h) =>
        var s := Scan(prev.0, gains[n - 1], |prev.0.foods|, h, bodies, spawn);
        (s.0, prev.1 + [s.1])
  }

  /**
   * Eating never changes how many foods there are, keeps them on the grid,
   * and never raises the interval or lowers a gain; a dead snake gains nothing.
   */
  lemma {:induction false} FeastBounds(t: Table, heads: seq<Option<Pos>>, gains: seq<Gain>, n: nat, bodies: set<Pos>, random: nat -> Draw)
    requires n <= |heads| == |gains|
    requires MIN_SPEED <= t.speed
    requires forall f :: f in t.foods ==> InBounds(f.pos)
    ensures var r := Feast(t, heads, gains, n, bodies, SpawnWith(random));
      && |r.0.foods| == |t.foods|
      && (forall f :: f in r.0.foods ==> InBounds(f.pos))
      && MIN_SPEED <= r.0.speed <= t.speed
      && t.cursor <= r.0.cursor
      && (forall k :: 0 <= k < n ==> r.1[k].growth >= gains[k].growth && r.1[k].points >= gains[k].points)
      && (forall k :: 0 <= k < n && heads[k].None? ==> r.1[k] == gains[k])
    decreases n
  {
    if n > 0 {
      var spawn := SpawnWith(random);
      SpawnWithSpawnsFree(random);
      var prev := Feast(t, heads, gains, n - 1, bodies, spawn);
      FeastBounds(t, heads, gains, n - 1, bodies, random);
      var r := Feast(t, heads, gains, n, bodies, spawn);
      assert forall k :: 0 <= k < n - 1 ==> r.1[k] == prev.1[k];
      if heads[n - 1].Some? {
        ScanBounds(prev.0, gains[n - 1], heads[n - 1].value, bodies, random);
      }
    }
  }

  /**
   * One live snake's scan keeps the number of foods and keeps them on the
   * grid, never raises the interval above its old value or drops it below
   * `MIN_SPEED`, moves the cursor only forward, and never lowers the
   * snake's growth or points.
   */
  lemma ScanBounds(t: Table, g: Gain, h: Pos, bodies: set<Pos>, random: nat -> Draw)
    requires MIN_SPEED <= t.speed
    requires forall f :: f in t.foods ==> InBounds(f.pos)
    ensures var s := Scan(t, g, |t.foods|, h, bodies, SpawnWith(random));
      && |s.0.foods| == |t.foods|
      && (forall f :: f in s.0.foods ==> InBounds(f.pos))
      && MIN_SPEED <= s.0.speed <= t.speed
      && t.cursor <= s.0.cursor
      && s.1.growth >= g.growth && s.1.points >= g.points
  {
    var spawn := SpawnWith(random);
    SpawnWithSpawnsFree(random);
    ScanFoods(t, g, |t.foods|, h, bodies, spawn);
    ScanInBounds(t, g, h, bodies, spawn);
    ScanGains(t, g, |t.foods|, h, bodies, spawn);
    SpeedAfterIsClamped(t.speed, |Eaten(t.foods[..|t.foods|], h)|);
  }

  /**
   * The death test of `tick` for snake `k` after the move: its head is off
   * the grid, on one of its own later segments, or anywhere on the body of
   * another snake, dead or alive, head included.
   */
  predicate Crashed(ss: seq<Snake>, k: nat)
    reads ss`body
    requires k < |ss| && |ss[k].body| >= 1
  {
    var h := ss[k].body[0];
    || !InBounds(h)
    || (exists m :: 1 <= m < |ss[k].body| && ss[k].body[m] == h)
    || HitsOther(ss, k, |ss|)
  }

  /** The head of snake `k` lies on one of the other snakes below index `n`. */
  predicate HitsOther(ss: seq<Snake>, k: nat, n: nat)
    reads ss`body
    requires k < |ss| && |ss[k].body| >= 1 && n <= |ss|
  {
    exists j :: 0 <= j < n && j != k && ss[k].body[0] in ss[j].body
  }

  /**
   * Two snakes whose heads meet both crash: each head lies on the other
   * snake's body.  So once the death test has run, two snakes still alive
   * never share a head cell, and the separate head-on check changes nothing.
   */
  lemma HeadOnCrashesBoth(ss: seq<Snake>)
    requires |ss| == 2 && |ss[0].body| >= 1 && |ss[1].body| >= 1
    requires ss[0].body[0] == ss[1].body[0]
    ensures Crashed(ss, 0) && Crashed(ss, 1)
  {
    assert HitsOther(ss, 0, 2) by { assert ss[0].body[0] in ss[1].body; }
    assert HitsOther(ss, 1, 2) by { assert ss[1].body[0] in ss[0].body; }
  }

  class Game {
    const mode: Mode
    var snakes: seq<Snake>
    var foods: seq<Food>
    /** Points from food, per player; in one-player mode only the first counts. */
    var scores: seq<nat>
    /** Rounds won, per player. */
    var roundScores: seq<nat>
    /** The tick interval in milliseconds. */
    var speed: int
    var paused: bool
    var roundActive: bool
    /** The stream of draws, and how many of them have been used. */
    const random: nat -> Draw
    var drawn: nat

    /**
     * The snakes of a session: one per player, all different, none with an
     * empty body, and only the second steered by the AI, in versus-AI mode.
     */
    ghost predicate Cast()
      reads this`snakes, snakes`body
    {
      && |snakes| == (if mode == OnePlayer then 1 else 2)
      && (|snakes| == 2 ==> snakes[0] != snakes[1])
      && (forall k :: 0 <= k < |snakes| ==> snakes[k].Valid())
      && !snakes[0].isAI
      && (|snakes| == 2 ==> (snakes[1].isAI <==> mode == VersusAi))
    }

    /** The shape every state of a session has. */
    ghost predicate Shaped()
      reads this`snakes, this`scores, this`roundScores, this`speed, snakes`body
    {
      && Cast()
      && |scores| == 2 && |roundScores| == 2
      && MIN_SPEED <= speed <= INITIAL_SPEED
    }

    /** Between `INITIAL_FOODS` and `FOOD_CAP` foods, all on the grid. */
    ghost predicate Stocked()
      reads this`foods
    {
      INITIAL_FOODS <= |foods| <= FOOD_CAP && forall f :: f in foods ==> InBounds(f.pos)
    }

    /** A running round has no dead snake. */
    ghost predicate Live()
      reads this`snakes, this`roundActive, snakes`alive
    {
      roundActive ==> forall k :: 0 <= k < |snakes| ==> snakes[k].alive
    }

    /** What every tick preserves. */
    ghost predicate Valid()
      reads this`snakes, this`scores, this`roundScores, this`speed, this`foods, this`roundActive
      reads snakes`body, snakes`alive
    {
      Shaped() && Stocked() && Live()
    }

    /**
     * The snakes at the start of a round: alive, owing no growth and with no
     * turn pending.  The first lies on the middle row with its head in
     * column 5, heading right, and is never steered by the AI.  The second
     * (in the two-player and versus-AI modes) lies on the middle row with its
     * head in column `COLS - 6`, heading left, and is steered by the AI
     * exactly in versus-AI mode.  Each body trails three cells behind its head.
     */
    ghost predicate Lineup()
      reads this`snakes, snakes`body, snakes`dir, snakes`nextDir, snakes`alive, snakes`growCount
    {
      && |snakes| == (if mode == OnePlayer then 1 else 2)
      && (|snakes| == 2 ==> snakes[0] != snakes[1])
      && (forall k :: 0 <= k < |snakes| ==> snakes[k].alive && snakes[k].growCount == 0 && snakes[k].nextDir == snakes[k].dir)
      && snakes[0].body == [Pos(5, ROWS / 2), Pos(4, ROWS / 2), Pos(3, ROWS / 2)]
      && snakes[0].dir == Right && !snakes[0].isAI
      && (|snakes| == 2 ==>
            && snakes[1].body == [Pos(COLS - 6, ROWS / 2), Pos(COLS - 5, ROWS / 2), Pos(COLS - 4, ROWS / 2)]
            && snakes[1].dir == Left && (snakes[1].isAI <==> mode == VersusAi))
    }

    function BodyCells(): (r: set<Pos>)
      reads this`snakes, snakes`body
    {
      BodyCellsOf(snakes)
    }

    /** Every cell on a snake or a food: what a new food must avoid. */
    function Occupied(): (r: set<Pos>)
      reads this`snakes, this`foods, snakes`body
    {
      BodyCells() + FoodCells(foods)
    }

    /** The occupied set that `getRandomEmptyCell` builds from every segment and every food. */
    method OccupiedCells() returns (occupied: set<Pos>)
      ensures occupied == Occupied()
    {
      occupied := {};
      var i := 0;
      while i < |snakes|
        invariant 0 <= i <= |snakes|
        invariant occupied == BodyCellsOf(snakes[..i])
      {
        var body := snakes[i].body;
        var m := 0;
        ghost var before := occupied;
        while m < |body|
          invariant 0 <= m <= |body|
          invariant occupied == before + Elements(body[..m])
        {
          assert Elements(body[..m + 1]) == Elements(body[..m]) + {body[m]} by {
            assert body[..m + 1] == body[..m] + [body[m]];
          }
          occupied := occupied + {body[m]};
          m := m + 1;
        }
        assert body[..m] == body;
        assert snakes[..i + 1][..i] == snakes[..i];
        i := i + 1;
      }
      assert snakes[..i] == snakes;
      ghost var bodies := occupied;
      var j := 0;
      while j < |foods|
        invariant 0 <= j <= |foods|
        invariant occupied == bodies + FoodCells(foods[..j])
      {
        assert FoodCells(foods[..j + 1]) == FoodCells(foods[..j]) + {foods[j].pos} by {
          assert foods[..j + 1] == foods[..j] + [foods[j]];
        }
        occupied := occupied + {foods[j].pos};
        j := j + 1;
      }
      assert foods[..j] == foods;
    }

    /**
     * `spawnFood`: a cell from the search with the cursor at `drawn`, then
     * one more draw for the variant; the new food goes to the end of the list.
     */
    method SpawnFood(ghost bodies: set<Pos>)
      requires bodies == BodyCells()
      modifies this`foods, this`drawn
      ensures foods == old(foods) + [SpawnWith(random)(bodies + FoodCells(old(foods)), old(drawn)).0]
      ensures drawn == SpawnWith(random)(bodies + FoodCells(old(foods)), old(drawn)).1
    {
      var occupied := OccupiedCells();
      var p, next := PickEmptyCell(occupied, random, drawn);
      var kind := SpawnKind(random(next));
      foods := foods + [Food(p, kind)];
      drawn := next + 1;
    }

    /**
     * The state of a new round before any food is spawned: new snakes in
     * their starting line-up, no food, the interval back to
     * `INITIAL_SPEED`, and the round running.
     */
    method ResetRound()
      requires |scores| == 2 && |roundScores| == 2
      modifies this`snakes, this`foods, this`speed, this`roundActive
      ensures Shaped() && Live() && Lineup()
      ensures forall k :: 0 <= k < |snakes| ==> fresh(snakes[k])
      ensures foods == [] && speed == INITIAL_SPEED && roundActive
    {
      speed := INITIAL_SPEED;
      foods := [];
      roundActive := true;
      var p1 := new Snake(5, ROWS / 2, Right, false);
      assert p1.body == [Pos(5, ROWS / 2), Pos(4, ROWS / 2), Pos(3, ROWS / 2)];
      if mode == OnePlayer {
        snakes := [p1];
      } else {
        var p2 := new Snake(COLS - 6, ROWS / 2, Left, mode == VersusAi);
        assert p2.body == [Pos(COLS - 6, ROWS / 2), Pos(COLS - 5, ROWS / 2), Pos(COLS - 4, ROWS / 2)];
        snakes := [p1, p2];
      }
    }

    /**
     * `initRound`: new snakes, the interval back to `INITIAL_SPEED`, and
     * `INITIAL_FOODS` foods spawned one after the other, each avoiding the
     * snakes and the foods before it.
     */
    method InitRound()
      requires |scores| == 2 && |roundScores| == 2
      modifies this`snakes, this`foods, this`speed, this`roundActive, this`drawn
      ensures Valid() && Lineup() && speed == INITIAL_SPEED && roundActive
      ensures forall k :: 0 <= k < |snakes| ==> fresh(snakes[k])
      ensures (foods, drawn) == SpawnRun(BodyCells(), SpawnWith(random), old(drawn), INITIAL_FOODS)
      ensures |foods| == INITIAL_FOODS && Placed(BodyCells(), foods)
    {
      ResetRound();
      ghost var start := drawn;
      SpawnFoods(INITIAL_FOODS);
      SpawnWithSpawnsFree(random);
      SpawnRunLength(BodyCells(), SpawnWith(random), start, INITIAL_FOODS);
      SpawnRunPlaces(BodyCells(), SpawnWith(random), start, INITIAL_FOODS);
      PlacedOnGrid(BodyCells(), foods);
    }

    /** `n` calls of `spawnFood` in a row, starting from no food. */
    method SpawnFoods(n: nat)
      requires foods == []
      modifies this`foods, this`drawn
      ensures (foods, drawn) == SpawnRun(BodyCells(), SpawnWith(random), old(drawn), n)
    {
      ghost var start := drawn;
      for i := 0 to n
        invariant (foods, drawn) == SpawnRun(BodyCells(), SpawnWith(random), start, i)
      {
        SpawnNext(start, i);
      }
    }

    /** One more `spawnFood` extends a run of `i` spawns to `i + 1`. */
    method SpawnNext(ghost start: nat, ghost i: nat)
      requires (foods, drawn) == SpawnRun(BodyCells(), SpawnWith(random), start, i)
      modifies this`foods, this`drawn
      ensures (foods, drawn) == SpawnRun(BodyCells(), SpawnWith(random), start, i + 1)
    {
      SpawnFood(BodyCells());
    }

    /** The table the food scan works on. */
    function TableNow(): (r: Table)
      reads this`foods, this`speed, this`drawn
    {
      Table(foods, speed, drawn)
    }

    /**
     * The food check of `tick` for the live snake `s` in slot `j`: from the
     * last food to the first, each food on the head is eaten.  The result is
     * the scan `Scan` on the old state.
     */
    method Feed(s: Snake, j: nat, ghost bodies: set<Pos>)
      requires s.Valid() && j < |scores| && bodies == BodyCells()
      modifies this`foods, this`scores, this`speed, this`drawn, s`growCount
      ensures |scores| == |old(scores)| && scores == old(scores)[j := scores[j]]
      ensures var r := Scan(Table(old(foods), old(speed), old(drawn)), Gain(old(s.growCount), old(scores[j])), |old(foods)|, s.body[0], bodies, SpawnWith(random));
        TableNow() == r.0 && Gain(s.growCount, scores[j]) == r.1
    {
      var head := s.body[0];
      ghost var spawn := SpawnWith(random);
      ghost var goal := Scan(TableNow(), Gain(s.growCount, scores[j]), |foods|, head, bodies, spawn);
      var i := |foods|;
      while i > 0
        invariant 0 <= i <= |foods| && |scores| == |old(scores)|
        invariant Scan(TableNow(), Gain(s.growCount, scores[j]), i, head, bodies, spawn) == goal
        invariant scores == old(scores)[j := scores[j]]
        invariant BodyCells() == bodies && s.body[0] == head
      {
        FeedStep(s, j, i, bodies);
        i := i - 1;
      }
    }

    /** One index of the scan: the food at `i - 1` is eaten when it is on the head of `s`. */
    method FeedStep(s: Snake, j: nat, i: nat, ghost bodies: set<Pos>)
      requires s.Valid() && 0 < i <= |foods| && j < |scores| && bodies == BodyCells()
      modifies this`foods, this`scores, this`speed, this`drawn, s`growCount
      ensures |scores| == |old(scores)| && scores == old(scores)[j := scores[j]]
      ensures |foods| == |old(foods)| && BodyCells() == bodies && s.body[0] == old(s.body[0])
      ensures Scan(TableNow(), Gain(s.growCount, scores[j]), i - 1, s.body[0], bodies, SpawnWith(random))
        == Scan(Table(old(foods), old(speed), old(drawn)), Gain(old(s.growCount), old(scores[j])), i, s.body[0], bodies, SpawnWith(random))
    {
      ScanUnfold(TableNow(), Gain(s.growCount, scores[j]), i, s.body[0], bodies, SpawnWith(random));
      if foods[i - 1].pos == s.body[0] {
        Eat(s, j, i, bodies);
      }
    }

    /**
     * `s` eats the food at index `i - 1`: it is owed the food's growth, slot
     * `j` gains its value, the food is spliced out, a new one is spawned at
     * the end of the list, and the interval shortens to
     * `max(MIN_SPEED, speed - SPEED_INCREMENT)`.
     */
    method Eat(s: Snake, j: nat, i: nat, ghost bodies: set<Pos>)
      requires 0 < i <= |foods| && j < |scores| && bodies == BodyCells()
      modifies this`foods, this`scores, this`speed, this`drawn, s`growCount
      ensures |scores| == |old(scores)| && scores == old(scores)[j := scores[j]]
      ensures TableNow() == AfterMeal(Table(old(foods), old(speed), old(drawn)), i, bodies, SpawnWith(random))
      ensures Gain(s.growCount, scores[j]) == MealGain(Table(old(foods), old(speed), old(drawn)), Gain(old(s.growCount), old(scores[j])), i)
    {
      var food := foods[i - 1];
      s.Grow(GrowAmount(food.kind));
      scores := scores[j := scores[j] + Value(food.kind)];
      foods := foods[..i - 1] + foods[i..];
      SpawnFood(bodies);
      speed := NextSpeed(speed);
    }

    /** No snake occurs twice in the list. */
    lemma Distinct()
      requires Cast()
      ensures forall a, b :: 0 <= a < |snakes| && 0 <= b < |snakes| && a != b ==> snakes[a] != snakes[b]
    {
    }

    /**
     * The AI step of `tick`: every live AI snake picks its direction with
     * `aiDecide`, its opponent being the first other snake.  Only the second
     * snake can be steered by the AI.
     */
    method AiPhase()
      requires Cast()
      modifies snakes`nextDir, this`drawn
      ensures snakes[0].nextDir == old(snakes[0].nextDir)
      ensures var steered := |snakes| == 2 && snakes[1].isAI && snakes[1].alive;
        && (!steered ==> drawn == old(drawn) && forall k :: 0 <= k < |snakes| ==> snakes[k].nextDir == old(snakes[k].nextDir))
        && (steered ==>
              && drawn == old(drawn) + |Survivors(AllDirections, snakes[1].dir, snakes[1].body, snakes[0].body)|
              && AiChoice(snakes[1].dir, snakes[1].body, snakes[0].body, foods, random, old(drawn), snakes[1].nextDir))
    {
      Distinct();
      var i := 0;
      while i < |snakes|
        invariant 0 <= i <= |snakes|
        invariant forall k :: i <= k < |snakes| ==> snakes[k].nextDir == old(snakes[k].nextDir)
        invariant snakes[0].nextDir == old(snakes[0].nextDir)
        invariant i <= 1 ==> drawn == old(drawn)
        invariant i == 2 && !(snakes[1].isAI && snakes[1].alive) ==> drawn == old(drawn) && snakes[1].nextDir == old(snakes[1].nextDir)
        invariant i == 2 && snakes[1].isAI && snakes[1].alive ==>
              && drawn == old(drawn) + |Survivors(AllDirections, snakes[1].dir, snakes[1].body, snakes[0].body)|
              && AiChoice(snakes[1].dir, snakes[1].body, snakes[0].body, foods, random, old(drawn), snakes[1].nextDir)
      {
        var snake := snakes[i];
        if snake.isAI && snake.alive {
          var opponent: Snake? := if |snakes| == 2 then snakes[1 - i] else null;
          drawn := AiDecide(snake, opponent, foods, random, drawn);
        }
        i := i + 1;
      }
    }

    /** The move step of `tick`: every snake, live or dead, is told to update. */
    method MovePhase()
      requires Cast()
      modifies snakes`body, snakes`dir, snakes`growCount
      ensures Cast()
      ensures forall k :: 0 <= k < |snakes| ==>
        if snakes[k].alive then
          && snakes[k].dir == snakes[k].nextDir
          && snakes[k].body == Advanced(old(snakes[k].body), snakes[k].nextDir, old(snakes[k].growCount))
          && snakes[k].growCount == GrowthLeft(old(snakes[k].growCount))
        else
          snakes[k].body == old(snakes[k].body) && snakes[k].dir == old(snakes[k].dir) && snakes[k].growCount == old(snakes[k].growCount)
    {
      Distinct();
      var i := 0;
      while i < |snakes|
        invariant 0 <= i <= |snakes|
        invariant forall k :: 0 <= k < |snakes| ==> snakes[k].Valid()
        invariant forall k :: 0 <= k < i ==>
          if snakes[k].alive then
            && snakes[k].dir == snakes[k].nextDir
            && snakes[k].body == Advanced(old(snakes[k].body), snakes[k].nextDir, old(snakes[k].growCount))
            && snakes[k].growCount == GrowthLeft(old(snakes[k].growCount))
          else
            snakes[k].body == old(snakes[k].body) && snakes[k].dir == old(snakes[k].dir) && snakes[k].growCount == old(snakes[k].growCount)
        invariant forall k :: i <= k < |snakes| ==>
          snakes[k].body == old(snakes[k].body) && snakes[k].dir == old(snakes[k].dir) && snakes[k].growCount == old(snakes[k].growCount)
      {
        snakes[i].Update();
        i := i + 1;
      }
    }

    /**
     * The food step of `tick`: each live snake in turn runs the food scan
     * with its head, and slot `j` of the scores (slot 0 in one-player mode)
     * collects its points.  The result is the eating phase `Feast` on the
     * old state.
     */
    method EatPhase()
      requires Shaped()
      modifies this`foods, this`scores, this`speed, this`drawn, snakes`growCount
      ensures |scores| == 2 && (mode == OnePlayer ==> scores[1] == old(scores[1]))
      ensures (TableNow(), GainsOf(snakes, scores))
        == Feast(Table(old(foods), old(speed), old(drawn)), HeadsOf(snakes), old(GainsOf(snakes, scores)), |snakes|, BodyCells(), SpawnWith(random))
    {
      Distinct();
      ghost var t0 := TableNow();
      ghost var g0 := GainsOf(snakes, scores);
      ghost var heads := HeadsOf(snakes);
      ghost var bodies := BodyCells();
      var j := 0;
      while j < |snakes|
        invariant 0 <= j <= |snakes| && |scores| == 2
        invariant forall k :: j <= k < |snakes| ==> snakes[k].growCount == old(snakes[k].growCount)
        invariant forall k :: j <= k < 2 ==> scores[k] == old(scores[k])
        invariant TableNow() == Feast(t0, heads, g0, j, bodies, SpawnWith(random)).0
        invariant forall k :: 0 <= k < j ==> Gain(snakes[k].growCount, scores[k]) == Feast(t0, heads, g0, j, bodies, SpawnWith(random)).1[k]
      {
        EatStep(j, t0, g0, heads, bodies);
        j := j + 1;
      }
    }

    /** One snake of the food step: the eating phase extended by snake `j`. */
    method EatStep(j: nat, ghost t0: Table, ghost g0: seq<Gain>, ghost heads: seq<Option<Pos>>, ghost bodies: set<Pos>)
      requires Cast() && |scores| == 2 && j < |snakes| && |g0| == |snakes| == |heads|
      requires heads[j] == HeadOf(snakes[j]) && bodies == BodyCells()
      requires snakes[j].growCount == g0[j].growth && scores[j] == g0[j].points
      requires TableNow() == Feast(t0, heads, g0, j, bodies, SpawnWith(random)).0
      requires forall k :: 0 <= k < j ==> Gain(snakes[k].growCount, scores[k]) == Feast(t0, heads, g0, j, bodies, SpawnWith(random)).1[k]
      modifies this`foods, this`scores, this`speed, this`drawn, snakes`growCount
      ensures |scores| == 2
      ensures forall k :: 0 <= k < |snakes| && k != j ==> snakes[k].growCount == old(snakes[k].growCount)
      ensures forall k :: 0 <= k < 2 && k != j ==> scores[k] == old(scores[k])
      ensures TableNow() == Feast(t0, heads, g0, j + 1, bodies, SpawnWith(random)).0
      ensures forall k :: 0 <= k <= j ==> Gain(snakes[k].growCount, scores[k]) == Feast(t0, heads, g0, j + 1, bodies, SpawnWith(random)).1[k]
    {
      Distinct();
      var snake := snakes[j];
      if snake.alive {
        var slot := if mode == OnePlayer then 0 else j;
        assert slot == j && heads[j] == Some(snake.body[0]);
        Feed(snake, slot, bodies);
      }
    }

    /**
     * The death step of `tick`: every live snake that has crashed is marked
     * dead.  The test looks at bodies only, which this step does not change,
     * so its outcome does not depend on the order of the snakes.
     */
    method DeathPhase()
      requires Cast()
      modifies snakes`alive
      ensures forall k :: 0 <= k < |snakes| ==> snakes[k].alive == (old(snakes[k].alive) && !Crashed(snakes, k))
    {
      Distinct();
      var i := 0;
      while i < |snakes|
        invariant 0 <= i <= |snakes|
        invariant forall k :: 0 <= k < i ==> snakes[k].alive == (old(snakes[k].alive) && !Crashed(snakes, k))
        invariant forall k :: i <= k < |snakes| ==> snakes[k].alive == old(snakes[k].alive)
      {
        CrashTest(snakes[i], i);
        i := i + 1;
      }
    }

    /** The death test of `tick` for the snake `snake` at index `i`. */
    method CrashTest(snake: Snake, i: nat)
      requires Cast() && i < |snakes| && snake == snakes[i]
      modifies snake`alive
      ensures snake.alive == (old(snake.alive) && !Crashed(snakes, i))
    {
      if snake.alive {
        var selfHit := false;
        if !snake.HitsWall() {
          selfHit := snake.CheckSelfCollision();
        }
        if snake.HitsWall() || selfHit {
          snake.alive := false;
        }
        var j := 0;
        while j < |snakes|
          invariant 0 <= j <= |snakes|
          invariant snake.alive == (old(snake.alive) && !snake.HitsWall() && !selfHit && !HitsOther(snakes, i, j))
          invariant selfHit <==> !snake.HitsWall() && exists m :: 1 <= m < |snake.body| && snake.body[m] == snake.body[0]
        {
          if i != j {
            var hit := snake.CheckCollisionWith(snakes[j]);
            if hit {
              snake.alive := false;
            }
          }
          j := j + 1;
        }
      }
    }

    /**
     * The head-on step of `tick`: when two live snakes share a head cell,
     * both die.
     */
    method HeadOnPhase()
      requires Cast()
      modifies snakes`alive
      ensures var meet := |snakes| == 2 && old(snakes[0].alive) && old(snakes[1].alive) && snakes[0].body[0] == snakes[1].body[0];
        forall k :: 0 <= k < |snakes| ==> snakes[k].alive == (old(snakes[k].alive) && !meet)
    {
      if |snakes| == 2 && snakes[0].alive && snakes[1].alive {
        if snakes[0].body[0] == snakes[1].body[0] {
          snakes[0].alive := false;
          snakes[1].alive := false;
        }
      }
    }

    /**
     * The extra-food step of `tick`: a food is spawned when there are fewer
     * than `MIN_FOODS`, or, when there are fewer than `FOOD_CAP`, if a draw
     * falls below 0.02; that draw is taken only in the second case.
     */
    method ExtraFood(ghost bodies: set<Pos>)
      requires bodies == BodyCells()
      modifies this`foods, this`drawn
      ensures var spawned := SpawnWith(random)(bodies + FoodCells(old(foods)), old(drawn));
        |old(foods)| < MIN_FOODS ==> foods == old(foods) + [spawned.0] && drawn == spawned.1
      ensures var spawned := SpawnWith(random)(bodies + FoodCells(old(foods)), old(drawn) + 1);
        MIN_FOODS <= |old(foods)| < FOOD_CAP ==>
          if ExtraFoodDrawn(random(old(drawn))) then foods == old(foods) + [spawned.0] && drawn == spawned.1
          else foods == old(foods) && drawn == old(drawn) + 1
      ensures FOOD_CAP <= |old(foods)| ==> foods == old(foods) && drawn == old(drawn)
    {
      var extra := |foods| < MIN_FOODS;
      if !extra && |foods| < FOOD_CAP {
        var u := random(drawn);
        drawn := drawn + 1;
        extra := ExtraFoodDrawn(u);
      }
      if extra {
        SpawnFood(bodies);
      }
    }

    /**
     * `checkRoundEnd`: the verdict of `Judge` on who is alive.  The round
     * scores take the verdict's update and the round stops unless it goes on.
     */
    method CheckRoundEnd() returns (outcome: Outcome)
      requires Cast() && |roundScores| == 2
      modifies this`roundScores, this`roundActive
      ensures (outcome, roundScores) == Judge(mode, AliveOf(snakes), old(roundScores))
      ensures roundActive == (old(roundActive) && outcome == Playing)
      ensures Live()
    {
      if mode == OnePlayer {
        if !snakes[0].alive {
          roundActive := false;
          outcome := GameOver;
        } else {
          outcome := Playing;
        }
        return;
      }
      var living := (if snakes[0].alive then 1 else 0) + (if snakes[1].alive then 1 else 0);
      if living <= 0 {
        roundActive := false;
        outcome := Draw;
      } else if living == 1 && |snakes| == 2 {
        var winner := if snakes[0].alive then 0 else 1;
        roundScores := roundScores[winner := roundScores[winner] + 1];
        roundActive := false;
        if roundScores[winner] >= ROUNDS_TO_WIN {
          outcome := MatchWon(winner);
        } else {
          outcome := RoundWon(winner);
        }
      } else {
        outcome := Playing;
      }
    }

    /**
     * `tick`: nothing happens while the game is paused or between rounds.
     * Otherwise the AI steers, every snake moves, the live ones eat, the
     * crashed ones die, two live snakes whose heads meet both die, a food
     * may be added, and `checkRoundEnd` gives its verdict.
     */
    method Tick() returns (outcome: Option<Outcome>)
      requires Valid()
      modifies this`foods, this`scores, this`roundScores, this`speed, this`roundActive, this`drawn
      modifies snakes`body, snakes`dir, snakes`nextDir, snakes`growCount, snakes`alive
      ensures Valid()
      ensures paused || !old(roundActive) ==> outcome == None && unchanged(this) && unchanged(snakes)
      ensures !paused && old(roundActive) ==>
        && outcome.Some?
        && (outcome.value, roundScores) == Judge(mode, AliveOf(snakes), old(roundScores))
        && roundActive == (outcome.value == Playing)
      ensures speed <= old(speed) && scores[0] >= old(scores[0]) && scores[1] >= old(scores[1])
      ensures !paused && old(roundActive) ==> forall k :: 0 <= k < |snakes| ==>
        && snakes[k].dir == snakes[k].nextDir
        && snakes[k].body == Advanced(old(snakes[k].body), snakes[k].dir, old(snakes[k].growCount))
        && (snakes[k].alive <==> !Crashed(snakes, k))
      ensures !paused && old(roundActive) && |snakes| == 2 && snakes[0].body[0] == snakes[1].body[0] ==>
        !snakes[0].alive && !snakes[1].alive
      ensures !paused && old(roundActive) ==> snakes[0].dir == old(snakes[0].nextDir)
      ensures !paused && old(roundActive) && |snakes| == 2 && !snakes[1].isAI ==> snakes[1].dir == old(snakes[1].nextDir)
      ensures !paused && old(roundActive) && |snakes| == 2 && snakes[1].isAI ==>
        AiChoice(old(snakes[1].dir), old(snakes[1].body), old(snakes[0].body), old(foods), random, old(drawn), snakes[1].dir)
    {
      if paused || !roundActive {
        return None;
      }
      var verdict := Play();
      outcome := Some(verdict);
    }

    /** One tick of a running round. */
    method Play() returns (outcome: Outcome)
      requires Valid() && roundActive
      modifies this`foods, this`scores, this`roundScores, this`speed, this`roundActive, this`drawn
      modifies snakes`body, snakes`dir, snakes`nextDir, snakes`growCount, snakes`alive
      ensures Valid()
      ensures (outcome, roundScores) == Judge(mode, AliveOf(snakes), old(roundScores))
      ensures roundActive == (outcome == Playing)
      ensures speed <= old(speed) && scores[0] >= old(scores[0]) && scores[1] >= old(scores[1])
      ensures forall k :: 0 <= k < |snakes| ==>
        && snakes[k].dir == snakes[k].nextDir
        && snakes[k].body == Advanced(old(snakes[k].body), snakes[k].dir, old(snakes[k].growCount))
        && (snakes[k].alive <==> !Crashed(snakes, k))
      ensures |snakes| == 2 && snakes[0].body[0] == snakes[1].body[0] ==> !snakes[0].alive && !snakes[1].alive
      ensures snakes[0].dir == old(snakes[0].nextDir)
      ensures |snakes| == 2 && !snakes[1].isAI ==> snakes[1].dir == old(snakes[1].nextDir)
      ensures |snakes| == 2 && snakes[1].isAI ==>
        AiChoice(old(snakes[1].dir), old(snakes[1].body), old(snakes[0].body), old(foods), random, old(drawn), snakes[1].dir)
    {
      Advance();
      outcome := Settle();
      if |snakes| == 2 && snakes[0].body[0] == snakes[1].body[0] {
        HeadOnCrashesBoth(snakes);
      }
    }

    // `tick` is proved in layers: `Play` is `Advance` (`Steer`, then `Move`)
    // followed by `Settle` (`Fare`, that is `Dine` and `Cull`, then
    // `Finish`, that is `Restock` and `CheckRoundEnd`).  Each layer restates
    // only what its caller needs, so that each proof stays small enough for
    // the verifier; `Dine` and `Graze` are split for the same reason.

    /** The steps of `tick` after the move: food, deaths, extra food and the verdict. */
    method Settle() returns (outcome: Outcome)
      requires Shaped() && Stocked() && roundActive
      modifies this`foods, this`scores, this`roundScores, this`speed, this`roundActive, this`drawn
      modifies snakes`growCount, snakes`alive
      ensures Valid()
      ensures (outcome, roundScores) == Judge(mode, AliveOf(snakes), old(roundScores))
      ensures roundActive == (outcome == Playing)
      ensures speed <= old(speed) && scores[0] >= old(scores[0]) && scores[1] >= old(scores[1])
      ensures forall k :: 0 <= k < |snakes| ==> snakes[k].alive == (old(snakes[k].alive) && !Crashed(snakes, k))
      ensures forall k :: 0 <= k < |snakes| ==>
        snakes[k].body == old(snakes[k].body) && snakes[k].dir == old(snakes[k].dir) && snakes[k].nextDir == old(snakes[k].nextDir)
      ensures forall k :: 0 <= k < |snakes| ==> snakes[k].growCount >= old(snakes[k].growCount)
    {
      Fare();
      outcome := Finish();
    }

    /** The food, death and head-on steps of `tick`, and what they keep. */
    method Fare()
      requires Shaped() && Stocked()
      modifies this`foods, this`scores, this`speed, this`drawn, snakes`growCount, snakes`alive
      ensures Shaped() && Stocked()
      ensures speed <= old(speed) && scores[0] >= old(scores[0]) && scores[1] >= old(scores[1])
      ensures forall k :: 0 <= k < |snakes| ==> snakes[k].alive == (old(snakes[k].alive) && !Crashed(snakes, k))
      ensures forall k :: 0 <= k < |snakes| ==>
        snakes[k].body == old(snakes[k].body) && snakes[k].dir == old(snakes[k].dir) && snakes[k].nextDir == old(snakes[k].nextDir)
      ensures forall k :: 0 <= k < |snakes| ==> snakes[k].growCount >= old(snakes[k].growCount)
    {
      Dine();
      Cull();
    }

    /** The extra-food step and `checkRoundEnd`. */
    method Finish() returns (outcome: Outcome)
      requires Cast() && Stocked() && |roundScores| == 2 && roundActive
      modifies this`foods, this`drawn, this`roundScores, this`roundActive
      ensures Stocked() && Live()
      ensures (outcome, roundScores) == Judge(mode, AliveOf(snakes), old(roundScores))
      ensures roundActive == (outcome == Playing)
      ensures |old(foods)| <= |foods| <= |old(foods)| + 1
      ensures forall k :: 0 <= k < |snakes| ==> snakes[k].alive == old(snakes[k].alive) && snakes[k].body == old(snakes[k].body)
    {
      Restock();
      outcome := CheckRoundEnd();
    }

    /** The extra-food step of `tick` keeps the food list within its bounds. */
    method Restock()
      requires Stocked()
      modifies this`foods, this`drawn
      ensures Stocked() && |old(foods)| <= |foods| <= |old(foods)| + 1
    {
      ghost var bodies := BodyCells();
      ExtraFood(bodies);
      SpawnWithSpawnsFree(random);
    }

    /** The AI and move steps of `tick`, while every snake is alive. */
    method Advance()
      requires Valid() && roundActive
      modifies snakes`nextDir, this`drawn, snakes`body, snakes`dir, snakes`growCount
      ensures Shaped() && Stocked() && roundActive && forall k :: 0 <= k < |snakes| ==> snakes[k].alive
      ensures speed == old(speed) && scores == old(scores) && roundScores == old(roundScores) && foods == old(foods)
      ensures forall k :: 0 <= k < |snakes| ==>
        && snakes[k].dir == snakes[k].nextDir
        && snakes[k].body == Advanced(old(snakes[k].body), snakes[k].dir, old(snakes[k].growCount))
        && snakes[k].growCount == GrowthLeft(old(snakes[k].growCount))
      ensures snakes[0].dir == old(snakes[0].nextDir)
      ensures |snakes| == 2 && !snakes[1].isAI ==> snakes[1].dir == old(snakes[1].nextDir)
      ensures |snakes| == 2 && snakes[1].isAI ==>
        AiChoice(old(snakes[1].dir), old(snakes[1].body), old(snakes[0].body), old(foods), random, old(drawn), snakes[1].dir)
      ensures drawn == old(drawn) + (if |snakes| == 2 && snakes[1].isAI
                                     then |Survivors(AllDirections, old(snakes[1].dir), old(snakes[1].body), old(snakes[0].body))| else 0)
    {
      Steer();
      Move();
    }

    /** The AI step of a running round: the new `nextDir` of each snake, and the session invariant it keeps. */
    method Steer()
      requires Valid() && roundActive
      modifies snakes`nextDir, this`drawn
      ensures Valid() && roundActive
      ensures snakes[0].nextDir == old(snakes[0].nextDir)
      ensures |snakes| == 2 && !snakes[1].isAI ==> snakes[1].nextDir == old(snakes[1].nextDir)
      ensures |snakes| == 2 && snakes[1].isAI ==>
        AiChoice(snakes[1].dir, snakes[1].body, snakes[0].body, foods, random, old(drawn), snakes[1].nextDir)
      ensures drawn == old(drawn) + (if |snakes| == 2 && snakes[1].isAI
                                     then |Survivors(AllDirections, snakes[1].dir, snakes[1].body, snakes[0].body)| else 0)
    {
      AiPhase();
    }

    /** The move step of a running round, and the session invariant it keeps. */
    method Move()
      requires Valid() && roundActive
      modifies snakes`body, snakes`dir, snakes`growCount
      ensures Shaped() && Stocked() && roundActive && forall k :: 0 <= k < |snakes| ==> snakes[k].alive
      ensures forall k :: 0 <= k < |snakes| ==>
        && snakes[k].dir == snakes[k].nextDir
        && snakes[k].body == Advanced(old(snakes[k].body), snakes[k].nextDir, old(snakes[k].growCount))
        && snakes[k].growCount == GrowthLeft(old(snakes[k].growCount))
    {
      MovePhase();
    }

    /**
     * The food step of `tick` and what it keeps: as many foods as before,
     * all on the grid, an interval that has not risen, and scores that
     * have not fallen.
     */
    method Dine()
      requires Shaped() && Stocked()
      modifies this`foods, this`scores, this`speed, this`drawn, snakes`growCount
      ensures Shaped() && Stocked() && |foods| == |old(foods)|
      ensures speed <= old(speed) && scores[0] >= old(scores[0]) && scores[1] >= old(scores[1])
      ensures forall k :: 0 <= k < |snakes| ==>
        snakes[k].body == old(snakes[k].body) && snakes[k].dir == old(snakes[k].dir) && snakes[k].nextDir == old(snakes[k].nextDir)
      ensures forall k :: 0 <= k < |snakes| ==> snakes[k].growCount >= old(snakes[k].growCount)
    {
      Graze();
    }

    /** The bounds `Dine` keeps, from the exact effect of the food step. */
    method Graze()
      requires Shaped() && Stocked()
      modifies this`foods, this`scores, this`speed, this`drawn, snakes`growCount
      ensures Shaped() && Stocked() && |foods| == |old(foods)|
      ensures speed <= old(speed) && scores[0] >= old(scores[0]) && scores[1] >= old(scores[1])
      ensures forall k :: 0 <= k < |snakes| ==> snakes[k].growCount >= old(snakes[k].growCount)
    {
      ghost var bodies := BodyCells();
      ghost var t0 := TableNow();
      ghost var g0 := GainsOf(snakes, scores);
      EatPhase();
      ghost var r := Feast(t0, HeadsOf(snakes), g0, |snakes|, bodies, SpawnWith(random));
      FeastBounds(t0, HeadsOf(snakes), g0, |snakes|, bodies, random);
      ghost var gains := GainsOf(snakes, scores);
      assert TableNow() == r.0 && gains == r.1;
      assert forall k :: 0 <= k < |snakes| ==> gains[k].points >= g0[k].points && gains[k].growth >= g0[k].growth;
    }

    /**
     * The death and head-on steps of `tick`: a snake stays alive exactly
     * when it was alive and has not crashed.  The head-on step finds
     * nothing left to do, since heads that meet have already crashed.
     */
    method Cull()
      requires Cast()
      modifies snakes`alive
      ensures Cast()
      ensures forall k :: 0 <= k < |snakes| ==> snakes[k].alive == (old(snakes[k].alive) && !Crashed(snakes, k))
      ensures forall k :: 0 <= k < |snakes| ==>
        snakes[k].body == old(snakes[k].body) && snakes[k].dir == old(snakes[k].dir) && snakes[k].nextDir == old(snakes[k].nextDir)
      ensures forall k :: 0 <= k < |snakes| ==> snakes[k].growCount == old(snakes[k].growCount)
    {
      DeathPhase();
      if |snakes| == 2 && snakes[0].body[0] == snakes[1].body[0] {
        HeadOnCrashesBoth(snakes);
      }
      HeadOnPhase();
    }

    /** `startGame`: both score tables at zero, then the first round. */
    constructor (mode: Mode, random: nat -> Draw)
      ensures Valid() && Lineup()
      ensures this.mode == mode && this.random == random
      ensures scores == [0, 0] && roundScores == [0, 0] && !paused
      ensures roundActive && speed == INITIAL_SPEED && |foods| == INITIAL_FOODS
      ensures forall k :: 0 <= k < |snakes| ==> fresh(snakes[k])
    {
      this.mode := mode;
      this.random := random;
      scores := [0, 0];
      roundScores := [0, 0];
      paused := false;
      drawn := 0;
      new;
      StartRound();
    }

    /**
     * `startRound`: a fresh round by `initRound`; the countdown before the
     * first tick is timing only.
     */
    method StartRound()
      requires |scores| == 2 && |roundScores| == 2
      modifies this`snakes, this`foods, this`speed, this`roundActive, this`drawn
      ensures Valid() && Lineup() && roundActive && speed == INITIAL_SPEED && |foods| == INITIAL_FOODS
      ensures forall k :: 0 <= k < |snakes| ==> fresh(snakes[k])
    {
      InitRound();
    }
  }
}
