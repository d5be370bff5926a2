/**
 * Placing new food: a bounded rejection search for a free cell, falling back
 * to the centre of the grid, and the choice of variant.
 */
module Spawner {
  import opened Geometry
  import opened Randomness
  import opened Foods

  /** The search gives up after this many occupied samples. */
  const MAX_ATTEMPTS: nat := 1000

  /** One sampled cell: the x coordinate from draw `c`, the y coordinate from draw `c + 1`. */
  function Sample(random: nat -> Draw, c: nat): (p: Pos)
    ensures InBounds(p)
  {
    Pos(Below(random(c), COLS), Below(random(c + 1), ROWS))
  }

  /** The cell sampled on attempt `m` of a search that starts at cursor `c`. */
  function SampleAt(random: nat -> Draw, c: nat, m: nat): (r: Pos)
  {
    Sample(random, c + 2 * m)
  }

  /**
   * The search started at cursor `c` once `attempts` samples have been
   * rejected: the cell it returns and the cursor after the draws it used.
   */
  function SearchFrom(occupied: set<Pos>, random: nat -> Draw, c: nat, attempts: nat): (r: (Pos, nat))
    decreases MAX_ATTEMPTS - attempts
  {
    if attempts >= MAX_ATTEMPTS then (Centre(), c + 2 * attempts)
    else if SampleAt(random, c, attempts) !in occupied then (SampleAt(random, c, attempts), c + 2 * (attempts + 1))
    else SearchFrom(occupied, random, c, attempts + 1)
  }

  /** `getRandomEmptyCell` with the cursor at `c`. */
  function EmptyCell(occupied: set<Pos>, random: nat -> Draw, c: nat): (r: (Pos, nat))
  {
    SearchFrom(occupied, random, c, 0)
  }

  /**
   * What the search returns: the first sampled cell that is not occupied,
   * or, when all `MAX_ATTEMPTS` samples were occupied, the centre cell.
   */
  predicate FirstFreeOrCentre(occupied: set<Pos>, random: nat -> Draw, c: nat, p: Pos, next: nat)
  {
    || (exists n :: 0 <= n < MAX_ATTEMPTS && p == SampleAt(random, c, n) && p !in occupied
         && next == c + 2 * (n + 1)
         && forall m :: 0 <= m < n ==> SampleAt(random, c, m) in occupied)
    || (p == Centre() && next == c + 2 * MAX_ATTEMPTS
         && forall m :: 0 <= m < MAX_ATTEMPTS ==> SampleAt(random, c, m) in occupied)
  }

  lemma {:induction false} SearchFromIsFirstFree(occupied: set<Pos>, random: nat -> Draw, c: nat, a: nat)
    requires a <= MAX_ATTEMPTS
    requires forall m :: 0 <= m < a ==> SampleAt(random, c, m) in occupied
    ensures FirstFreeOrCentre(occupied, random, c, SearchFrom(occupied, random, c, a).0, SearchFrom(occupied, random, c, a).1)
    decreases MAX_ATTEMPTS - a
  {
    if a < MAX_ATTEMPTS && SampleAt(random, c, a) in occupied {
      SearchFromIsFirstFree(occupied, random, c, a + 1);
    }
  }

  /** The search returns the first free sample, or the centre after `MAX_ATTEMPTS` failures. */
  lemma EmptyCellIsFirstFree(occupied: set<Pos>, random: nat -> Draw, c: nat)
    ensures FirstFreeOrCentre(occupied, random, c, EmptyCell(occupied, random, c).0, EmptyCell(occupied, random, c).1)
  {
    SearchFromIsFirstFree(occupied, random, c, 0);
  }

  /** Only the fallback can land on an occupied cell; a free cell found is on the grid. */
  lemma EmptyCellFreeOrFallback(occupied: set<Pos>, random: nat -> Draw, c: nat)
    ensures var p := EmptyCell(occupied, random, c).0;
      InBounds(p) && (p !in occupied || p == Centre())
    ensures c < EmptyCell(occupied, random, c).1 <= c + 2 * MAX_ATTEMPTS
  {
    EmptyCellIsFirstFree(occupied, random, c);
  }

  /**
   * `getRandomEmptyCell`: sample cells until one is not occupied, giving up
   * after `MAX_ATTEMPTS` samples.  Returns the cell and the cursor after the
   * draws it consumed.
   */
  method PickEmptyCell(occupied: set<Pos>, random: nat -> Draw, cursor: nat) returns (p: Pos, next: nat)
    ensures (p, next) == EmptyCell(occupied, random, cursor)
    ensures FirstFreeOrCentre(occupied, random, cursor, p, next)
  {
    var attempts := 0;
    var c := cursor;
    while attempts < MAX_ATTEMPTS
      invariant 0 <= attempts <= MAX_ATTEMPTS
      invariant c == cursor + 2 * attempts
      invariant SearchFrom(occupied, random, cursor, attempts) == EmptyCell(occupied, random, cursor)
    {
      var cell := Sample(random, c);
      assert cell == SampleAt(random, cursor, attempts);
      if cell !in occupied {
        p, next := cell, c + 2;
        assert SearchFrom(occupied, random, cursor, attempts) == (p, next);
        break;
      }
      assert SearchFrom(occupied, random, cursor, attempts) == SearchFrom(occupied, random, cursor, attempts + 1);
      attempts := attempts + 1;
      c := c + 2;
    }
    if attempts == MAX_ATTEMPTS {
      p, next := Centre(), c;
    }
    EmptyCellIsFirstFree(occupied, random, cursor);
  }

  /**
   * `spawnFood` with the cursor at `c`: pick a cell, then draw once more for
   * the variant.  Returns the new food and the cursor after it.
   */
  function Spawned(occupied: set<Pos>, random: nat -> Draw, c: nat): (r: (Food, nat))
  {
    var (p, next) := EmptyCell(occupied, random, c);
    (Food(p, SpawnKind(random(next))), next + 1)
  }

  /** A spawned food sits on a free cell of the grid unless the search fell back to the centre. */
  lemma SpawnedOnFreeCell(occupied: set<Pos>, random: nat -> Draw, c: nat)
    ensures var (f, next) := Spawned(occupied, random, c);
      InBounds(f.pos) && (f.pos !in occupied || f.pos == Centre())
      && c < next && f.kind == SpawnKind(random(next - 1))
  {
    EmptyCellFreeOrFallback(occupied, random, c);
  }

  /** The cells that the foods `fs` sit on. */
  function FoodCells(fs: seq<Food>): (r: set<Pos>)
  {
    set f | f in fs :: f.pos
  }

  /** `spawnFood` as a function of the occupied cells and the cursor, for a fixed stream of draws. */
  function SpawnWith(random: nat -> Draw): (r: (set<Pos>, nat) -> (Food, nat))
  {
    (occupied, c) => Spawned(occupied, random, c)
  }

  /** A spawn function that only uses a cell the occupied set leaves free, or the centre, and moves the cursor on. */
  ghost predicate SpawnsFree(spawn: (set<Pos>, nat) -> (Food, nat))
  {
    forall occupied: set<Pos>, c: nat {:trigger spawn(occupied, c)} ::
      && InBounds(spawn(occupied, c).0.pos)
      && (spawn(occupied, c).0.pos !in occupied || spawn(occupied, c).0.pos == Centre())
      && c < spawn(occupied, c).1
  }

  lemma SpawnWithSpawnsFree(random: nat -> Draw)
    ensures SpawnsFree(SpawnWith(random))
  {
    forall occupied: set<Pos>, c: nat
      ensures && InBounds(SpawnWith(random)(occupied, c).0.pos)
              && (SpawnWith(random)(occupied, c).0.pos !in occupied || SpawnWith(random)(occupied, c).0.pos == Centre())
              && c < SpawnWith(random)(occupied, c).1
    {
      SpawnedOnFreeCell(occupied, random, c);
    }
  }

  /**
   * `n` calls of `spawn` in a row, with the cursor at `c`, when the snakes
   * cover `bodies`: each new food is placed avoiding the bodies and every food
   * spawned before it.  Returns the foods in spawn order and the cursor after them.
   */
  function SpawnRun(bodies: set<Pos>, spawn: (set<Pos>, nat) -> (Food, nat), c: nat, n: nat): (r: (seq<Food>, nat))
    decreases n
  {
    if n == 0 then ([], c)
    else
      var prev := SpawnRun(bodies, spawn, c, n - 1);
      var spawned := spawn(bodies + FoodCells(prev.0), prev.1);
      (prev.0 + [spawned.0], spawned.1)
  }

  /**
   * Each of `fs` is on the grid and off `bodies` and the foods before it,
   * unless it sits on the centre cell.
   */
  predicate Placed(bodies: set<Pos>, fs: seq<Food>)
  {
    forall k :: 0 <= k < |fs| ==>
      InBounds(fs[k].pos) && (fs[k].pos == Centre() || fs[k].pos !in bodies + FoodCells(fs[..k]))
  }

  lemma PlacedSnoc(bodies: set<Pos>, fs: seq<Food>, f: Food)
    requires Placed(bodies, fs)
    requires InBounds(f.pos) && (f.pos == Centre() || f.pos !in bodies + FoodCells(fs))
    ensures Placed(bodies, fs + [f])
  {
    var gs := fs + [f];
    forall k | 0 <= k < |gs|
      ensures InBounds(gs[k].pos) && (gs[k].pos == Centre() || gs[k].pos !in bodies + FoodCells(gs[..k]))
    {
      if k < |fs| {
        assert gs[k] == fs[k] && gs[..k] == fs[..k];
      } else {
        assert gs[..k] == fs;
      }
    }
  }

  /** A placed food list has every food on the grid. */
  lemma PlacedOnGrid(bodies: set<Pos>, fs: seq<Food>)
    requires Placed(bodies, fs)
    ensures forall f :: f in fs ==> InBounds(f.pos)
  {
    forall f | f in fs
      ensures InBounds(f.pos)
    {
      var k :| 0 <= k < |fs| && fs[k] == f;
    }
  }

  /** A run of `n` spawns yields `n` foods and moves the cursor on by at least `n`. */
  lemma {:induction false} SpawnRunLength(bodies: set<Pos>, spawn: (set<Pos>, nat) -> (Food, nat), c: nat, n: nat)
    requires SpawnsFree(spawn)
    ensures |SpawnRun(bodies, spawn, c, n).0| == n
    ensures c + n <= SpawnRun(bodies, spawn, c, n).1
    decreases n
  {
    if n > 0 {
      SpawnRunLength(bodies, spawn, c, n - 1);
    }
  }

  /**
   * Each food of a run is on the grid and off the bodies and the foods
   * before it unless the search fell back to the centre.
   */
  lemma {:induction false} SpawnRunPlaces(bodies: set<Pos>, spawn: (set<Pos>, nat) -> (Food, nat), c: nat, n: nat)
    requires SpawnsFree(spawn)
    ensures Placed(bodies, SpawnRun(bodies, spawn, c, n).0)
    decreases n
  {
    if n > 0 {
      var prev := SpawnRun(bodies, spawn, c, n - 1);
      SpawnRunPlaces(bodies, spawn, c, n - 1);
      PlacedSnoc(bodies, prev.0, spawn(bodies + FoodCells(prev.0), prev.1).0);
    }
  }
}
