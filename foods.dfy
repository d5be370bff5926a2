/**
 * Food items: a cell and a variant.  What a food is worth and how much it
 * makes a snake grow depend on the variant alone.
 */
module Foods {
  import opened Geometry
  import opened Randomness

  datatype FoodKind = Normal | Super | Speed

  datatype Food = Food(pos: Pos, kind: FoodKind)

  /** Points scored for eating a food of this kind (the `value` getter). */
  function Value(k: FoodKind): (v: nat)
    ensures v == 3 <==> k == Super
    ensures v == 1 <==> k != Super
  {
    match k
    case Super => 3
    case Speed => 1
    case Normal => 1
  }

  /** Segments a snake gains for eating a food of this kind (the `growAmount` getter). */
  function GrowAmount(k: FoodKind): (g: nat)
    ensures g == 3 <==> k == Super
    ensures g == 1 <==> k != Super
  {
    if k == Super then 3 else 1
  }

  /** Every food makes its eater grow by exactly as many segments as it scores. */
  lemma GrowMatchesValue(k: FoodKind)
    ensures GrowAmount(k) == Value(k) >= 1
  {
  }

  /**
   * The variant a new food gets from one draw `rand = u / RAND_SCALE`:
   * `super` above 0.92, `speed` above 0.82, `normal` otherwise.
   */
  function SpawnKind(u: Draw): (k: FoodKind)
    ensures k == Super <==> 100 * u > 92 * RAND_SCALE
    ensures k == Speed <==> 82 * RAND_SCALE < 100 * u <= 92 * RAND_SCALE
    ensures k == Normal <==> 100 * u <= 82 * RAND_SCALE
  {
    if 100 * u > 92 * RAND_SCALE then Super
    else if 100 * u > 82 * RAND_SCALE then Speed
    else Normal
  }

  /** A larger draw never gives a less valuable variant. */
  lemma SpawnKindMonotone(u: Draw, w: Draw)
    requires u <= w
    ensures Value(SpawnKind(u)) <= Value(SpawnKind(w))
    ensures SpawnKind(u) == Super ==> SpawnKind(w) == Super
    ensures SpawnKind(w) == Normal ==> SpawnKind(u) == Normal
  {
  }
}
