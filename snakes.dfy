/**
 * A snake: its body (head first), its current and pending directions, whether
 * it is alive, whether the AI steers it, and the growth still owed to it.
 */
module Snakes {
  import opened Geometry

  /** Number of segments a snake is created with. */
  const INITIAL_LENGTH: nat := 3

  /**
   * The body after one advance: a new head one step from the old head, the
   * old body behind it, and the old tail dropped unless growth is owed.
   */
  function Advanced(body: seq<Pos>, d: Direction, growCount: nat): (r: seq<Pos>)
    requires |body| >= 1
  {
    [Step(body[0], d)] + (if growCount > 0 then body else body[..|body| - 1])
  }

  /** The growth still owed after one advance. */
  function GrowthLeft(growCount: nat): (r: nat)
  {
    if growCount > 0 then growCount - 1 else 0
  }

  /** One advance grows the body by one exactly when growth is owed, and the old body follows the new head. */
  lemma AdvancedShape(body: seq<Pos>, d: Direction, growCount: nat)
    requires |body| >= 1
    ensures var r := Advanced(body, d, growCount);
      && |r| == |body| + (if growCount > 0 then 1 else 0)
      && r[0] == Step(body[0], d)
      && r[1..] == body[..|r| - 1]
      && |r| >= 1
  {
  }

  /** The body and the owed growth after advancing once in each of the directions `ds`. */
  function Run(body: seq<Pos>, growCount: nat, ds: seq<Direction>): (r: (seq<Pos>, nat))
    requires |body| >= 1
    decreases |ds|
  {
    if ds == [] then (body, growCount)
    else
      AdvancedShape(body, ds[0], growCount);
      Run(Advanced(body, ds[0], growCount), GrowthLeft(growCount), ds[1..])
  }

  /**
   * Growth is paid out one segment per tick: after `n` advances the body is
   * longer by `min(n, growCount)` and that much less growth is owed.
   */
  lemma {:induction false} RunGrowth(body: seq<Pos>, growCount: nat, ds: seq<Direction>)
    requires |body| >= 1
    ensures var (b, g) := Run(body, growCount, ds);
      var paid := if |ds| < growCount then |ds| else growCount;
      |b| == |body| + paid && g == growCount - paid && |b| >= 1
    decreases |ds|
  {
    if ds != [] {
      AdvancedShape(body, ds[0], growCount);
      RunGrowth(Advanced(body, ds[0], growCount), GrowthLeft(growCount), ds[1..]);
    }
  }

  class Snake {
    var body: seq<Pos>
    var dir: Direction
    var nextDir: Direction
    var alive: bool
    const isAI: bool
    var growCount: nat

    /** The body is never empty. */
    ghost predicate Valid()
      reads this`body
    {
      |body| >= 1
    }

    /**
     * A live snake of `INITIAL_LENGTH` segments with its head at the start
     * cell and each later segment one more step back against `d`.
     */
    constructor (startX: int, startY: int, d: Direction, isAI: bool)
      ensures Valid()
      ensures |body| == INITIAL_LENGTH
      ensures forall k :: 0 <= k < |body| ==> body[k] == Pos(startX - k * DX(d), startY - k * DY(d))
      ensures forall k :: 1 <= k < |body| ==> Step(body[k], d) == body[k - 1]
      ensures dir == d && nextDir == d && alive && this.isAI == isAI && growCount == 0
    {
      var segments := [Pos(startX, startY)];
      var i := 1;
      while i < INITIAL_LENGTH
        invariant 1 <= i <= INITIAL_LENGTH
        invariant |segments| == i
        invariant forall k :: 0 <= k < i ==> segments[k] == Pos(startX - k * DX(d), startY - k * DY(d))
      {
        segments := segments + [Pos(startX - i * DX(d), startY - i * DY(d))];
        i := i + 1;
      }
      body := segments;
      dir := d;
      nextDir := d;
      alive := true;
      this.isAI := isAI;
      growCount := 0;
    }

    /** The cell of the head, which is a segment of the body. */
    function Head(): (r: Pos)
      reads this`body
      requires Valid()
      ensures r in body
    {
      body[0]
    }

    /** A request to turn: ignored when it is the exact reverse of the current direction. */
    method SetDirection(d: Direction)
      modifies this`nextDir
      ensures IsReverse(dir, d) ==> nextDir == old(nextDir)
      ensures !IsReverse(dir, d) ==> nextDir == d
    {
      if IsReverse(dir, d) {
        return;
      }
      nextDir := d;
    }

    /**
     * One tick of movement: a dead snake stays put; a live one takes up its
     * pending direction and advances one cell, keeping its tail while growth
     * is owed.
     */
    method Update()
      requires Valid()
      modifies this`body, this`dir, this`growCount
      ensures Valid()
      ensures !alive ==> body == old(body) && dir == old(dir) && growCount == old(growCount)
      ensures alive ==> dir == old(nextDir)
      ensures alive ==> body == Advanced(old(body), old(nextDir), old(growCount))
      ensures alive ==> growCount == GrowthLeft(old(growCount))
    {
      if !alive {
        return;
      }
      dir := nextDir;
      var newHead := Step(body[0], dir);
      body := [newHead] + body;
      if growCount > 0 {
        growCount := growCount - 1;
      } else {
        body := body[..|body| - 1];
      }
    }

    /** Owe the snake `amount` more segments. */
    method Grow(amount: nat)
      modifies this`growCount
      ensures growCount == old(growCount) + amount
    {
      growCount := growCount + amount;
    }

    /** `checkWallCollision`: the head has left the grid. */
    function HitsWall(): (hit: bool)
      reads this`body
      requires Valid()
      ensures hit <==> Head().x < 0 || Head().x >= COLS || Head().y < 0 || Head().y >= ROWS
    {
      !InBounds(Head())
    }

    /** `checkSelfCollision`: the head lies on one of the snake's own later segments. */
    method CheckSelfCollision() returns (hit: bool)
      requires Valid()
      ensures hit <==> exists i :: 1 <= i < |body| && body[i] == body[0]
    {
      hit := Occupies(body[1..], body[0]);
      assert hit <==> exists j :: 0 <= j < |body| - 1 && body[1..][j] == body[0];
      if hit {
        var j :| 0 <= j < |body| - 1 && body[1..][j] == body[0];
        assert body[j + 1] == body[0];
      }
    }

    /** `checkCollisionWith`: the head lies on any segment of `other`, its head included. */
    method CheckCollisionWith(other: Snake) returns (hit: bool)
      requires Valid()
      ensures hit <==> body[0] in other.body
    {
      hit := Occupies(other.body, body[0]);
    }
  }
}
