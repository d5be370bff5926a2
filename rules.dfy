/**
 * The rules a tick applies, on values: the speed-up after each meal, the
 * backward scan through the food list when a snake's head lands on food,
 * and the judging of a round once the deaths of a tick are known.
 */
module Rules {
  import opened Geometry
  import opened Foods
  import opened Spawner

  /** Rounds a player must win to take the match. */
  const ROUNDS_TO_WIN: nat := 3
  /** Milliseconds per tick at the start of a round. */
  const INITIAL_SPEED: int := 120
  /** Milliseconds taken off the tick interval per food eaten. */
  const SPEED_INCREMENT: int := 2
  /** The tick interval never drops below this. */
  const MIN_SPEED: int := 50

  datatype Mode = OnePlayer | TwoPlayer | VersusAi

  /** What `checkRoundEnd` decides after a tick. */
  datatype Outcome =
    | Playing
    | GameOver
    | Draw
    | RoundWon(winner: nat)
    | MatchWon(winner: nat)

  /** The interval after one meal: `SPEED_INCREMENT` less, but not below `MIN_SPEED`. */
  function NextSpeed(speed: int): (r: int)
    ensures r >= MIN_SPEED && r >= speed - SPEED_INCREMENT
    ensures r == MIN_SPEED || r == speed - SPEED_INCREMENT
    ensures speed >= MIN_SPEED ==> r <= speed
    ensures speed >= MIN_SPEED + SPEED_INCREMENT ==> r == speed - SPEED_INCREMENT
  {
    if speed - SPEED_INCREMENT > MIN_SPEED then speed - SPEED_INCREMENT else MIN_SPEED
  }

  /** The interval after `n` meals. */
  function SpeedAfter(speed: int, n: nat): (r: int)
    decreases n
  {
    if n == 0 then speed else SpeedAfter(NextSpeed(speed), n - 1)
  }

  /**
   * `n` meals take `n * SPEED_INCREMENT` milliseconds off the interval, but
   * never below `MIN_SPEED`; from a legal interval the speed never rises.
   */
  lemma {:induction false} SpeedAfterIsClamped(speed: int, n: nat)
    requires speed >= MIN_SPEED
    ensures var r := SpeedAfter(speed, n);
      && (r == if speed - n * SPEED_INCREMENT > MIN_SPEED then speed - n * SPEED_INCREMENT else MIN_SPEED)
      && MIN_SPEED <= r <= speed
    decreases n
  {
    if n > 0 {
      SpeedAfterIsClamped(NextSpeed(speed), n - 1);
    }
  }

  /** The state of the table while one snake eats: the foods, the interval and the draw cursor. */
  datatype Table = Table(foods: seq<Food>, speed: int, cursor: nat)

  /** What one snake has gained: owed segments and points. */
  datatype Gain = Gain(growth: nat, points: nat)

  /**
   * The scan of `tick` for one live snake whose head is at `head`, over the
   * food indices below `i`, highest first.  A food on the head is spliced
   * out, the snake gains its growth and points, a new food is spawned onto a
   * cell left free by `bodies` and the remaining foods, and the interval
   * shortens; the scan then goes on with the next lower index.
   */
  function Scan(t: Table, g: Gain, i: nat, head: Pos, bodies: set<Pos>, spawn: (set<Pos>, nat) -> (Food, nat)): (r: (Table, Gain))
    requires i <= |t.foods|
    decreases i
  {
    if i == 0 then (t, g)
    else if t.foods[i - 1].pos != head then Scan(t, g, i - 1, head, bodies, spawn)
    else Scan(AfterMeal(t, i, bodies, spawn), MealGain(t, g, i), i - 1, head, bodies, spawn)
  }

  /** The foods of `fs` that are not on `head`, in order. */
  function Kept(fs: seq<Food>, head: Pos): (r: seq<Food>)
  {
    if fs == [] then []
    else Kept(fs[..|fs| - 1], head) + (if fs[|fs| - 1].pos == head then [] else [fs[|fs| - 1]])
  }

  /** The foods of `fs` that are on `head`, in order. */
  function Eaten(fs: seq<Food>, head: Pos): (r: seq<Food>)
  {
    if fs == [] then []
    else Eaten(fs[..|fs| - 1], head) + (if fs[|fs| - 1].pos == head then [fs[|fs| - 1]] else [])
  }

  function TotalGrowth(fs: seq<Food>): (r: nat)
  {
    if fs == [] then 0 else TotalGrowth(fs[..|fs| - 1]) + GrowAmount(fs[|fs| - 1].kind)
  }

  function TotalValue(fs: seq<Food>): (r: nat)
  {
    if fs == [] then 0 else TotalValue(fs[..|fs| - 1]) + Value(fs[|fs| - 1].kind)
  }

  /** Between them, `Kept` and `Eaten` account for every food of `fs`. */
  lemma {:induction false} KeptEatenLength(fs: seq<Food>, head: Pos)
    ensures |Kept(fs, head)| + |Eaten(fs, head)| == |fs|
  {
    if fs != [] {
      KeptEatenLength(fs[..|fs| - 1], head);
    }
  }

  /** `Kept` holds exactly the foods of `fs` off `head`, `Eaten` exactly those on it. */
  lemma {:induction false} KeptEatenMembers(fs: seq<Food>, head: Pos)
    ensures forall f :: f in Kept(fs, head) <==> f in fs && f.pos != head
    ensures forall f :: f in Eaten(fs, head) <==> f in fs && f.pos == head
  {
    if fs != [] {
      var init := fs[..|fs| - 1];
      KeptEatenMembers(init, head);
      assert fs == init + [fs[|fs| - 1]];
    }
  }

  /** Every food scores exactly the segments it makes its eater grow by. */
  lemma {:induction false} TotalsAgree(fs: seq<Food>)
    ensures TotalGrowth(fs) == TotalValue(fs) >= |fs|
  {
    if fs != [] {
      TotalsAgree(fs[..|fs| - 1]);
      GrowMatchesValue(fs[|fs| - 1].kind);
    }
  }

  /** A food placed by a spawn: on the grid, and off every body unless it sits on the centre. */
  predicate Fresh(bodies: set<Pos>, f: Food)
  {
    InBounds(f.pos) && (f.pos == Centre() || f.pos !in bodies)
  }

  /** The foods of `tail` from index `n` on were all placed by spawns. */
  predicate FreshFrom(bodies: set<Pos>, tail: seq<Food>, n: int)
  {
    forall k :: 0 <= n <= k < |tail| ==> Fresh(bodies, tail[k])
  }

  /** Extending the scanned prefix by the food at index `i - 1`. */
  lemma PrefixStep(fs: seq<Food>, i: nat, head: Pos)
    requires 0 < i <= |fs|
    ensures Kept(fs[..i], head) == Kept(fs[..i - 1], head) + (if fs[i - 1].pos == head then [] else [fs[i - 1]])
    ensures Eaten(fs[..i], head) == Eaten(fs[..i - 1], head) + (if fs[i - 1].pos == head then [fs[i - 1]] else [])
  {
    assert fs[..i][..i - 1] == fs[..i - 1];
  }

  /** The table after the food at index `i - 1`, which is on the head, has been eaten and replaced by a spawn. */
  function AfterMeal(t: Table, i: nat, bodies: set<Pos>, spawn: (set<Pos>, nat) -> (Food, nat)): (r: Table)
    requires 0 < i <= |t.foods|
  {
    var rest := t.foods[..i - 1] + t.foods[i..];
    var s := spawn(bodies + FoodCells(rest), t.cursor);
    Table(rest + [s.0], NextSpeed(t.speed), s.1)
  }

  /** The snake's gain after eating the food at index `i - 1`. */
  function MealGain(t: Table, g: Gain, i: nat): (r: Gain)
    requires 0 < i <= |t.foods|
  {
    Gain(g.growth + GrowAmount(t.foods[i - 1].kind), g.points + Value(t.foods[i - 1].kind))
  }

  /** The scan, one index at a time. */
  lemma ScanUnfold(t: Table, g: Gain, i: nat, head: Pos, bodies: set<Pos>, spawn: (set<Pos>, nat) -> (Food, nat))
    requires 0 < i <= |t.foods|
    ensures t.foods[i - 1].pos != head ==> Scan(t, g, i, head, bodies, spawn) == Scan(t, g, i - 1, head, bodies, spawn)
    ensures t.foods[i - 1].pos == head ==>
      Scan(t, g, i, head, bodies, spawn) == Scan(AfterMeal(t, i, bodies, spawn), MealGain(t, g, i), i - 1, head, bodies, spawn)
  {
  }

  /** The food list the scan leaves, described by the foods it starts from. */
  ghost predicate FoodsAfter(t: Table, g: Gain, i: nat, head: Pos, bodies: set<Pos>, spawn: (set<Pos>, nat) -> (Food, nat))
    requires i <= |t.foods|
  {
    var r := Scan(t, g, i, head, bodies, spawn).0;
    var n := |t.foods| - |Eaten(t.foods[..i], head)|;
    && |r.foods| == |t.foods|
    && 0 <= n
    && r.foods[..n] == Kept(t.foods[..i], head) + t.foods[i..]
    && FreshFrom(bodies, r.foods, n)
    && t.cursor + |Eaten(t.foods[..i], head)| <= r.cursor
  }

  /** `FoodsAfter` carried across a food that is left in place. */
  lemma FoodsAfterSkip(t: Table, g: Gain, i: nat, head: Pos, bodies: set<Pos>, spawn: (set<Pos>, nat) -> (Food, nat))
    requires 0 < i <= |t.foods| && t.foods[i - 1].pos != head
    requires FoodsAfter(t, g, i - 1, head, bodies, spawn)
    ensures FoodsAfter(t, g, i, head, bodies, spawn)
  {
    var fs := t.foods;
    ScanUnfold(t, g, i, head, bodies, spawn);
    KeptEatenLength(fs[..i - 1], head);
    PrefixStep(fs, i, head);
    assert fs[i - 1..] == [fs[i - 1]] + fs[i..];
    assert Kept(fs[..i - 1], head) + fs[i - 1..] == Kept(fs[..i], head) + fs[i..];
    assert Eaten(fs[..i], head) == Eaten(fs[..i - 1], head);
  }

  /** The spawn just before the replacements already accounted for joins them. */
  lemma JoinSpawn(r: seq<Food>, kept: seq<Food>, tail: seq<Food>, s: Food, bodies: set<Pos>)
    requires |kept| + |tail| + 1 <= |r|
    requires r[..|kept| + |tail| + 1] == kept + (tail + [s])
    requires FreshFrom(bodies, r, |kept| + |tail| + 1)
    requires Fresh(bodies, s)
    ensures r[..|kept| + |tail|] == kept + tail
    ensures FreshFrom(bodies, r, |kept| + |tail|)
  {
    var n := |kept| + |tail|;
    assert r[n] == (kept + (tail + [s]))[n];
    assert r[..n] == r[..n + 1][..n];
  }

  /** `FoodsAfter` carried across a food that is eaten and replaced. */
  lemma FoodsAfterEat(t: Table, g: Gain, i: nat, head: Pos, bodies: set<Pos>, spawn: (set<Pos>, nat) -> (Food, nat))
    requires 0 < i <= |t.foods| && t.foods[i - 1].pos == head
    requires SpawnsFree(spawn)
    requires FoodsAfter(AfterMeal(t, i, bodies, spawn), MealGain(t, g, i), i - 1, head, bodies, spawn)
    ensures FoodsAfter(t, g, i, head, bodies, spawn)
  {
    var fs := t.foods;
    var t1 := AfterMeal(t, i, bodies, spawn);
    var s := spawn(bodies + FoodCells(fs[..i - 1] + fs[i..]), t.cursor);
    var u := t1.foods;
    ScanUnfold(t, g, i, head, bodies, spawn);
    assert u[..i - 1] == fs[..i - 1];
    assert u[i - 1..] == fs[i..] + [s.0];
    KeptEatenLength(fs[..i - 1], head);
    PrefixStep(fs, i, head);
    assert |u| - |Eaten(u[..i - 1], head)| == |Kept(fs[..i - 1], head)| + |fs[i..]| + 1;
    JoinSpawn(Scan(t1, MealGain(t, g, i), i - 1, head, bodies, spawn).0.foods, Kept(fs[..i - 1], head), fs[i..], s.0, bodies);
  }

  lemma {:induction false} FoodsAfterScan(t: Table, g: Gain, i: nat, head: Pos, bodies: set<Pos>, spawn: (set<Pos>, nat) -> (Food, nat))
    requires i <= |t.foods|
    requires SpawnsFree(spawn)
    ensures FoodsAfter(t, g, i, head, bodies, spawn)
    decreases i
  {
    if i > 0 {
      if t.foods[i - 1].pos != head {
        FoodsAfterScan(t, g, i - 1, head, bodies, spawn);
        FoodsAfterSkip(t, g, i, head, bodies, spawn);
      } else {
        FoodsAfterScan(AfterMeal(t, i, bodies, spawn), MealGain(t, g, i), i - 1, head, bodies, spawn);
        FoodsAfterEat(t, g, i, head, bodies, spawn);
      }
    }
  }

  /**
   * What the scan does to the food list: the number of foods stays the
   * same; the foods not on the head keep their order, followed by the foods
   * at and above index `i` untouched; after them come the replacements, one
   * per food eaten, each placed by a spawn.  The cursor moves on by at
   * least one draw per food eaten.
   */
  lemma ScanFoods(t: Table, g: Gain, i: nat, head: Pos, bodies: set<Pos>, spawn: (set<Pos>, nat) -> (Food, nat))
    requires i <= |t.foods|
    requires SpawnsFree(spawn)
    ensures var r := Scan(t, g, i, head, bodies, spawn).0;
      var n := |t.foods| - |Eaten(t.foods[..i], head)|;
      && |r.foods| == |t.foods|
      && 0 <= n
      && r.foods[..n] == Kept(t.foods[..i], head) + t.foods[i..]
      && (forall k :: n <= k < |r.foods| ==> Fresh(bodies, r.foods[k]))
      && t.cursor + |Eaten(t.foods[..i], head)| <= r.cursor
  {
    FoodsAfterScan(t, g, i, head, bodies, spawn);
  }

  /** A whole scan keeps every food on the grid. */
  lemma ScanInBounds(t: Table, g: Gain, head: Pos, bodies: set<Pos>, spawn: (set<Pos>, nat) -> (Food, nat))
    requires SpawnsFree(spawn)
    requires forall f :: f in t.foods ==> InBounds(f.pos)
    ensures forall f :: f in Scan(t, g, |t.foods|, head, bodies, spawn).0.foods ==> InBounds(f.pos)
  {
    var r := Scan(t, g, |t.foods|, head, bodies, spawn).0;
    ScanFoods(t, g, |t.foods|, head, bodies, spawn);
    assert t.foods[..|t.foods|] == t.foods;
    assert t.foods[|t.foods|..] == [];
    KeptEatenMembers(t.foods, head);
    var n := |t.foods| - |Eaten(t.foods, head)|;
    forall f | f in r.foods
      ensures InBounds(f.pos)
    {
      var k :| 0 <= k < |r.foods| && r.foods[k] == f;
      if k < n {
        assert f == r.foods[..n][k];
      }
    }
  }

  /** The snake's gains and the interval the scan leaves, described by the foods it starts from. */
  ghost predicate GainsAfter(t: Table, g: Gain, i: nat, head: Pos, bodies: set<Pos>, spawn: (set<Pos>, nat) -> (Food, nat))
    requires i <= |t.foods|
  {
    var r := Scan(t, g, i, head, bodies, spawn);
    var eaten := Eaten(t.foods[..i], head);
    && r.1.growth == g.growth + TotalGrowth(eaten)
    && r.1.points == g.points + TotalValue(eaten)
    && r.0.speed == SpeedAfter(t.speed, |eaten|)
  }

  /** The totals of a list with one more food. */
  lemma TotalsSnoc(fs: seq<Food>, f: Food)
    ensures TotalGrowth(fs + [f]) == TotalGrowth(fs) + GrowAmount(f.kind)
    ensures TotalValue(fs + [f]) == TotalValue(fs) + Value(f.kind)
  {
    assert (fs + [f])[..|fs|] == fs;
  }

  /** `GainsAfter` carried across a food that is left in place. */
  lemma GainsAfterSkip(t: Table, g: Gain, i: nat, head: Pos, bodies: set<Pos>, spawn: (set<Pos>, nat) -> (Food, nat))
    requires 0 < i <= |t.foods| && t.foods[i - 1].pos != head
    requires GainsAfter(t, g, i - 1, head, bodies, spawn)
    ensures GainsAfter(t, g, i, head, bodies, spawn)
  {
    ScanUnfold(t, g, i, head, bodies, spawn);
    PrefixStep(t.foods, i, head);
    assert Eaten(t.foods[..i], head) == Eaten(t.foods[..i - 1], head);
  }

  /** `GainsAfter` carried across a food that is eaten. */
  lemma GainsAfterEat(t: Table, g: Gain, i: nat, head: Pos, bodies: set<Pos>, spawn: (set<Pos>, nat) -> (Food, nat))
    requires 0 < i <= |t.foods| && t.foods[i - 1].pos == head
    requires GainsAfter(AfterMeal(t, i, bodies, spawn), MealGain(t, g, i), i - 1, head, bodies, spawn)
    ensures GainsAfter(t, g, i, head, bodies, spawn)
  {
    var fs := t.foods;
    ScanUnfold(t, g, i, head, bodies, spawn);
    PrefixStep(fs, i, head);
    assert AfterMeal(t, i, bodies, spawn).foods[..i - 1] == fs[..i - 1];
    var e := Eaten(fs[..i - 1], head);
    TotalsSnoc(e, fs[i - 1]);
    assert SpeedAfter(NextSpeed(t.speed), |e|) == SpeedAfter(t.speed, |e| + 1);
  }

  lemma {:induction false} GainsAfterScan(t: Table, g: Gain, i: nat, head: Pos, bodies: set<Pos>, spawn: (set<Pos>, nat) -> (Food, nat))
    requires i <= |t.foods|
    ensures GainsAfter(t, g, i, head, bodies, spawn)
    decreases i
  {
    if i > 0 {
      if t.foods[i - 1].pos != head {
        GainsAfterScan(t, g, i - 1, head, bodies, spawn);
        GainsAfterSkip(t, g, i, head, bodies, spawn);
      } else {
        GainsAfterScan(AfterMeal(t, i, bodies, spawn), MealGain(t, g, i), i - 1, head, bodies, spawn);
        GainsAfterEat(t, g, i, head, bodies, spawn);
      }
    }
  }

  /**
   * What the scan gives the snake: the growth and the points of exactly
   * the foods on its head, and one speed-up of the interval per food.
   */
  lemma ScanGains(t: Table, g: Gain, i: nat, head: Pos, bodies: set<Pos>, spawn: (set<Pos>, nat) -> (Food, nat))
    requires i <= |t.foods|
    ensures var r := Scan(t, g, i, head, bodies, spawn);
      var eaten := Eaten(t.foods[..i], head);
      && r.1.growth == g.growth + TotalGrowth(eaten)
      && r.1.points == g.points + TotalValue(eaten)
      && r.0.speed == SpeedAfter(t.speed, |eaten|)
  {
    GainsAfterScan(t, g, i, head, bodies, spawn);
  }

  /**
   * `checkRoundEnd` on the alive flags after a tick.  With one player the
   * game is over once that snake is dead.  With two, no survivor is a draw
   * and a sole survivor wins the round, and the match once it has
   * `ROUNDS_TO_WIN` rounds; the round scores are returned updated.
   */
  function Judge(mode: Mode, alive: seq<bool>, roundScores: seq<nat>): (r: (Outcome, seq<nat>))
    requires |roundScores| == 2
    requires |alive| == if mode == OnePlayer then 1 else 2
    ensures |r.1| == 2
    ensures mode == OnePlayer ==> r.1 == roundScores && (r.0 == GameOver <==> !alive[0]) && (r.0 == Playing <==> alive[0])
    ensures mode != OnePlayer ==> (r.0 == Playing <==> alive[0] && alive[1])
    ensures mode != OnePlayer ==> (r.0 == Draw <==> !alive[0] && !alive[1])
    ensures r.0 == Draw || r.0 == Playing ==> r.1 == roundScores
    ensures forall w: nat :: (r.0 == RoundWon(w) || r.0 == MatchWon(w)) <==>
      mode != OnePlayer && w < 2 && alive[w] && !alive[1 - w]
    ensures forall w: nat :: r.0 == RoundWon(w) || r.0 == MatchWon(w) ==>
      w < 2 && r.1 == roundScores[w := roundScores[w] + 1] && (r.0 == MatchWon(w) <==> r.1[w] >= ROUNDS_TO_WIN)
  {
    if mode == OnePlayer then
      (if alive[0] then Playing else GameOver, roundScores)
    else if !alive[0] && !alive[1] then
      (Draw, roundScores)
    else if alive[0] && alive[1] then
      (Playing, roundScores)
    else
      var w := if alive[0] then 0 else 1;
      var scores := roundScores[w := roundScores[w] + 1];
      (if scores[w] >= ROUNDS_TO_WIN then MatchWon(w) else RoundWon(w), scores)
  }

  /**
   * A match stays within its bounds: while neither player has won it, the
   * round scores stay at most `ROUNDS_TO_WIN`, they reach it only with a
   * match win, and they change only for the round's winner.
   */
  lemma MatchBounded(mode: Mode, alive: seq<bool>, roundScores: seq<nat>)
    requires |roundScores| == 2
    requires |alive| == if mode == OnePlayer then 1 else 2
    requires roundScores[0] < ROUNDS_TO_WIN && roundScores[1] < ROUNDS_TO_WIN
    ensures var r := Judge(mode, alive, roundScores);
      && r.1[0] <= ROUNDS_TO_WIN && r.1[1] <= ROUNDS_TO_WIN
      && ((exists w: nat :: w < 2 && r.1[w] == ROUNDS_TO_WIN) <==> r.0.MatchWon?)
      && r.1[0] + r.1[1] <= roundScores[0] + roundScores[1] + 1
  {
    var r := Judge(mode, alive, roundScores);
    if r.0.MatchWon? {
      assert r.1[r.0.winner] == ROUNDS_TO_WIN;
    }
  }
}
