/** The food point and the red ("hazard") point: their generators, which take
    the values rand() would have returned as parameters, and the lifecycle of
    the red point as GameLoop drives it frame by frame. */
module Points {
  import opened Geometry

  const RedPointTimer: real := 5.0
  const SlowdownFactor: real := 1.5
  const ShortenAmount: int := 1
  /** The x coordinate an eaten red point is parked at, right of the field. */
  const ParkedX: int := 900

  /** effectType values of a red point. */
  const ShortenEffect: int := 1
  const SlowdownEffect: int := 2

  datatype Point = Point(x: int, y: int)

  datatype RedPoint = RedPoint(
    x: int,
    y: int,
    timer: real,
    spawnDelay: real,
    active: bool,
    effectType: int,
    shortenAmount: int,
    slowdownFactor: real)

  /** GenerateRandomPoint: each roll picks one of the 24 columns or rows. */
  function RandomPoint(rollX: nat, rollY: nat): (p: Point)
    ensures OnGrid(p.x, p.y)
  {
    Point((rollX % (GameWidth / CellWidth)) * CellWidth,
          (rollY % (ScreenHeight / CellHeight)) * CellHeight)
  }

  /** Every cell of the grid is produced by some pair of rolls. */
  lemma RandomPointCoversGrid(p: Point)
    requires OnGrid(p.x, p.y)
    ensures RandomPoint(p.x / CellWidth, p.y / CellHeight) == p
  {
    var cx, cy := p.x / CellWidth, p.y / CellHeight;
    assert cx < GameWidth / CellWidth && cy < ScreenHeight / CellHeight;
  }

  /** GenerateRedPoint: a fresh, active red point on the grid with a full
      5-second timer and effect 1 (shorten by one) or 2 (slow down by 1.5). */
  function GenerateRedPoint(rollX: nat, rollY: nat, rollEffect: nat): (r: RedPoint)
    ensures OnGrid(r.x, r.y) && Point(r.x, r.y) == RandomPoint(rollX, rollY)
    ensures r.active && r.timer == RedPointTimer && r.spawnDelay == 0.0
    ensures r.effectType == ShortenEffect || r.effectType == SlowdownEffect
    ensures r.shortenAmount == ShortenAmount && r.slowdownFactor == SlowdownFactor
  {
    var p := RandomPoint(rollX, rollY);
    RedPoint(p.x, p.y, RedPointTimer, 0.0, true, rollEffect % 2 + 1, ShortenAmount, SlowdownFactor)
  }

  /** The delay before a red point comes back: a whole number of seconds in [3, 9]. */
  function RespawnDelay(roll: nat): (d: real)
    ensures 3.0 <= d <= 9.0 && d == d.Floor as real
  {
    (roll % 7 + 3) as real
  }

  /** The eaten branch of GameLoop: the point goes inactive, is parked off the
      field at x = 900 and draws a fresh respawn delay; nothing else changes. */
  function Eaten(rp: RedPoint, rollDelay: nat): (r: RedPoint)
    ensures !r.active && r.x == ParkedX && 3.0 <= r.spawnDelay <= 9.0
    ensures r == rp.(active := false, x := ParkedX, spawnDelay := r.spawnDelay)
  {
    rp.(active := false, x := ParkedX, spawnDelay := RespawnDelay(rollDelay))
  }

  /** The timer bookkeeping at the end of every frame: an active point counts
      down and expires at or below zero; an inactive one counts its delay down
      and is replaced by a freshly generated point at or below zero. */
  function Countdown(rp: RedPoint, delta: real, rollDelay: nat, rollX: nat, rollY: nat, rollEffect: nat): (r: RedPoint)
    ensures rp.active && rp.timer - delta > 0.0 ==> r == rp.(timer := rp.timer - delta)
    ensures rp.active && rp.timer - delta <= 0.0 ==>
      && !r.active && 3.0 <= r.spawnDelay <= 9.0
      && r == rp.(timer := rp.timer - delta, active := false, spawnDelay := r.spawnDelay)
    ensures !rp.active && rp.spawnDelay - delta > 0.0 ==> r == rp.(spawnDelay := rp.spawnDelay - delta)
    ensures !rp.active && rp.spawnDelay - delta <= 0.0 ==> r == GenerateRedPoint(rollX, rollY, rollEffect)
  {
    if rp.active then
      var left := rp.timer - delta;
      if left <= 0.0 then rp.(timer := left, active := false, spawnDelay := RespawnDelay(rollDelay))
      else rp.(timer := left)
    else
      var wait := rp.spawnDelay - delta;
      if wait <= 0.0 then GenerateRedPoint(rollX, rollY, rollEffect)
      else rp.(spawnDelay := wait)
  }

  /** What every red point the game holds satisfies: its effect is one of the
      two, its constants are those of GenerateRedPoint, an active point sits on
      the grid with time left, an inactive one has delay left. */
  predicate RedPointOk(rp: RedPoint) {
    && (rp.effectType == ShortenEffect || rp.effectType == SlowdownEffect)
    && rp.shortenAmount == ShortenAmount && rp.slowdownFactor == SlowdownFactor
    && (rp.active ==> OnGrid(rp.x, rp.y) && rp.timer > 0.0)
    && (!rp.active ==> rp.spawnDelay > 0.0)
  }

  /** Generation, eating and the countdown all keep RedPointOk. */
  lemma RedPointLifecycleOk(rp: RedPoint, delta: real, rollDelay: nat, rollX: nat, rollY: nat, rollEffect: nat)
    requires RedPointOk(rp)
    ensures RedPointOk(GenerateRedPoint(rollX, rollY, rollEffect))
    ensures RedPointOk(Eaten(rp, rollDelay))
    ensures RedPointOk(Countdown(rp, delta, rollDelay, rollX, rollY, rollEffect))
  {
  }

  /** An eaten point is parked off the grid, so no head on the grid can eat it
      again before it respawns. */
  lemma EatenPointOutOfReach(rp: RedPoint, rollDelay: nat, hx: int, hy: int)
    requires OnGrid(hx, hy)
    ensures var r := Eaten(rp, rollDelay); !(r.x == hx && r.y == hy)
  {
  }

  /** An expired point keeps its cell on the grid although it is inactive. */
  lemma ExpiredPointStaysInPlace(rp: RedPoint, delta: real, rollDelay: nat, rollX: nat, rollY: nat, rollEffect: nat)
    requires RedPointOk(rp) && rp.active && rp.timer - delta <= 0.0
    ensures var r := Countdown(rp, delta, rollDelay, rollX, rollY, rollEffect);
      !r.active && OnGrid(r.x, r.y) && r.x == rp.x && r.y == rp.y
  {
  }
}
