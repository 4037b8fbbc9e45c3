/** The snake as a value: the two coordinate arrays as sequences, the length,
    the heading and the two timers, and the effect of every operation of the
    snake on that value. The class SnakeBody.Snake is proved against these. */
module SnakeSpec {
  import opened Geometry

  const Capacity: int := 100
  const StartLength: int := 4
  const BaseSpeed: real := 0.1
  const SpeedupInterval: real := 30.0
  const SpeedupFactor: real := 0.2
  const MinSpeed: real := 0.02

  datatype SnakeState = SnakeState(
    xs: seq<int>,
    ys: seq<int>,
    length: int,
    dir: Direction,
    moveTimer: real,
    speed: real)
  {
    /** Both coordinate arrays hold 100 slots and the length stays in [1, 100]. */
    predicate Valid() {
      |xs| == Capacity && |ys| == Capacity && 1 <= length <= Capacity
    }

    predicate HeadOnGrid()
      requires Valid()
    {
      OnGrid(xs[0], ys[0])
    }
  }

  /** The speed curve of MoveSnake past the first 30 seconds: the base interval
      less 20% of it per whole 30 seconds elapsed, never below 0.02 s. */
  function SpeedCurve(worldTime: real): (r: real)
    requires worldTime > SpeedupInterval
    ensures MinSpeed <= r <= BaseSpeed - SpeedupFactor * BaseSpeed
    ensures r == MinSpeed <==> worldTime >= 4.0 * SpeedupInterval
  {
    var speedups := (worldTime / SpeedupInterval).Floor;
    var s := BaseSpeed - SpeedupFactor * BaseSpeed * speedups as real;
    if s < MinSpeed then MinSpeed else s
  }

  /** The step interval MoveSnake uses: recomputed only once more than 30 seconds
      have passed, otherwise whatever the snake already had. */
  function Accelerated(speed: real, worldTime: real): (r: real)
    ensures worldTime <= SpeedupInterval ==> r == speed
    ensures worldTime > SpeedupInterval ==> MinSpeed <= r <= BaseSpeed - SpeedupFactor * BaseSpeed
  {
    if worldTime > SpeedupInterval then SpeedCurve(worldTime) else speed
  }

  /** The loop of MoveSnake: every slot 1 <= i < len takes the old value of slot
      i - 1; slot 0 and the slots from len on keep theirs. */
  function ShiftBody(s: seq<int>, len: int): (r: seq<int>)
    requires 1 <= len <= |s|
    ensures |r| == |s| && r[0] == s[0]
    ensures forall i :: 1 <= i < len ==> r[i] == s[i - 1]
    ensures forall i :: len <= i < |s| ==> r[i] == s[i]
  {
    s[..1] + s[..len - 1] + s[len..]
  }

  /** MoveSnake: accumulate delta; if the interval is not reached only the timers
      change, otherwise the timer drops to zero, the heading is forced round a
      wall, the body shifts and the head moves one cell. */
  function Stepped(s: SnakeState, delta: real, worldTime: real): (r: SnakeState)
    requires s.Valid()
    ensures r.Valid() && r.length == s.length
  {
    var speed := Accelerated(s.speed, worldTime);
    var timer := s.moveTimer + delta;
    if timer < speed then
      s.(moveTimer := timer, speed := speed)
    else
      Advanced(s.(moveTimer := timer, speed := speed))
  }

  /** The moving half of MoveSnake, once the timer has run out: the timer
      restarts, the heading turns if blocked, the body follows and the head
      moves one cell. */
  function Advanced(s: SnakeState): (r: SnakeState)
    requires s.Valid()
    ensures r.Valid() && r.length == s.length && r.speed == s.speed && r.moveTimer == 0.0
    ensures r.dir == NextHeading(s.xs[0], s.ys[0], s.dir)
    ensures r.xs[0] == s.xs[0] + StepX(r.dir) && r.ys[0] == s.ys[0] + StepY(r.dir)
  {
    var d := NextHeading(s.xs[0], s.ys[0], s.dir);
    s.(xs := ShiftBody(s.xs, s.length)[0 := s.xs[0] + StepX(d)],
       ys := ShiftBody(s.ys, s.length)[0 := s.ys[0] + StepY(d)],
       dir := d,
       moveTimer := 0.0)
  }

  /** IncreaseSnakeLength: one more segment, up to the capacity of 100. */
  function Grown(s: SnakeState): (r: SnakeState)
    requires s.Valid()
    ensures r.Valid()
    ensures r.length == (if s.length + 1 <= Capacity then s.length + 1 else Capacity)
    ensures r == s.(length := r.length)
  {
    if s.length < Capacity then s.(length := s.length + 1) else s
  }

  /** ShortenSnake: amount segments fewer, but never fewer than one. */
  function Shortened(s: SnakeState, amount: int): (r: SnakeState)
    requires s.Valid() && amount >= 0
    ensures r.Valid()
    ensures r.length == (if s.length - amount >= 1 then s.length - amount else 1)
    ensures r == s.(length := r.length)
  {
    if s.length > amount then s.(length := s.length - amount) else s.(length := 1)
  }

  /** ApplySlowdownEffect: the step interval is multiplied by factor. */
  function SlowedDown(s: SnakeState, factor: real): (r: SnakeState)
    ensures s.Valid() ==> r.Valid()
    ensures r == s.(speed := r.speed)
    ensures factor >= 1.0 && s.speed >= 0.0 ==> r.speed >= s.speed
  {
    s.(speed := s.speed * factor)
  }

  /** The snake half of ResetGame: length 4, head at the centre of the field,
      heading right, timers back to start; the other 99 slots are left as they were. */
  function Reset(s: SnakeState): (r: SnakeState)
    requires s.Valid()
    ensures r.Valid() && r.HeadOnGrid()
    ensures r.length == StartLength && r.dir == Right
    ensures r.xs[0] == GameWidth / 2 && r.ys[0] == ScreenHeight / 2
    ensures r.moveTimer == 0.0 && r.speed == BaseSpeed
    ensures r.xs[1..] == s.xs[1..] && r.ys[1..] == s.ys[1..]
  {
    SnakeState(s.xs[0 := GameWidth / 2], s.ys[0 := ScreenHeight / 2],
               StartLength, Right, 0.0, BaseSpeed)
  }

  /** CheckIfSnakeHitItself: some segment other than the head shares its cell. */
  predicate SelfHit(s: SnakeState)
    requires s.Valid()
    ensures SelfHit(s) ==> s.length >= 2
  {
    exists i :: 1 <= i < s.length && s.xs[i] == s.xs[0] && s.ys[i] == s.ys[0]
  }

  /** The eat tests: the head stands on the given cell. */
  predicate HeadAt(s: SnakeState, x: int, y: int)
    requires s.Valid()
    ensures HeadAt(s, x, y) ==> (s.HeadOnGrid() <==> OnGrid(x, y))
  {
    s.xs[0] == x && s.ys[0] == y
  }

  /** The speed curve never speeds the snake back up as time passes. */
  lemma {:induction false} SpeedCurveNonIncreasing(earlier: real, later: real)
    requires SpeedupInterval < earlier <= later
    ensures SpeedCurve(later) <= SpeedCurve(earlier)
  {
    var m, n := (earlier / SpeedupInterval).Floor, (later / SpeedupInterval).Floor;
    assert m as real <= earlier / SpeedupInterval <= later / SpeedupInterval < n as real + 1.0;
  }

  /** Each whole 30 seconds, up to the fourth, takes 0.02 s (20% of the base
      interval) off the step interval. */
  lemma SpeedCurveMilestone(k: int, worldTime: real)
    requires 1 <= k <= 4
    requires k as real * SpeedupInterval <= worldTime < (k + 1) as real * SpeedupInterval
    requires worldTime > SpeedupInterval
    ensures SpeedCurve(worldTime) == BaseSpeed - SpeedupFactor * BaseSpeed * k as real
  {
    var n := (worldTime / SpeedupInterval).Floor;
    assert k as real <= worldTime / SpeedupInterval < (k + 1) as real;
    assert n == k;
  }

  /** Feeding half the step interval twice moves the snake exactly once, as long
      as the interval does not change between the calls: the first call only
      accumulates, the second reaches the interval and steps. */
  lemma HalfIntervalTwiceStepsOnce(s: SnakeState, worldTime: real)
    requires s.Valid() && s.moveTimer == 0.0 && s.speed > 0.0
    requires Accelerated(s.speed, worldTime) == s.speed
    ensures var once := Stepped(s, s.speed / 2.0, worldTime);
      && once.xs == s.xs && once.ys == s.ys && once.moveTimer == s.speed / 2.0
      && var twice := Stepped(once, s.speed / 2.0, worldTime);
         twice.moveTimer == 0.0 && (twice.xs[0] != s.xs[0] || twice.ys[0] != s.ys[0])
  {
  }

  /** Below 30 seconds the multiplier of ApplySlowdownEffect survives MoveSnake. */
  lemma SlowdownPersists(s: SnakeState, factor: real, delta: real, worldTime: real)
    requires s.Valid() && worldTime <= SpeedupInterval
    ensures Stepped(SlowedDown(s, factor), delta, worldTime).speed == s.speed * factor
  {
  }

  /** Past 30 seconds the next MoveSnake overwrites the multiplier with the curve. */
  lemma SlowdownOverwritten(s: SnakeState, factor: real, delta: real, worldTime: real)
    requires s.Valid() && worldTime > SpeedupInterval
    ensures Stepped(SlowedDown(s, factor), delta, worldTime).speed == Stepped(s, delta, worldTime).speed
  {
  }

  /** MoveSnake recomputes the interval only past 30 seconds; below it the
      old interval, slowdown included, is kept. */
  lemma StepSpeed(s: SnakeState, delta: real, worldTime: real)
    requires s.Valid()
    ensures worldTime > SpeedupInterval ==> Stepped(s, delta, worldTime).speed == SpeedCurve(worldTime)
    ensures worldTime <= SpeedupInterval ==> Stepped(s, delta, worldTime).speed == s.speed
  {
  }

  /** While the accumulated time stays below the interval, MoveSnake changes
      only the timer (and the interval): body, length and heading stay. */
  lemma StepWaits(s: SnakeState, delta: real, worldTime: real)
    requires s.Valid()
    requires s.moveTimer + delta < Accelerated(s.speed, worldTime)
    ensures var r := Stepped(s, delta, worldTime);
      r == s.(moveTimer := s.moveTimer + delta, speed := Accelerated(s.speed, worldTime))
  {
  }

  /** Once the interval is reached, however large delta is, the timer drops to
      exactly zero, the heading is the one TurnSnake leaves (kept when it is
      not blocked), the head moves exactly one cell in it, each segment
      1 <= i < length takes the place of segment i - 1, and the slots past the
      length are untouched. */
  lemma StepMovesOneCell(s: SnakeState, delta: real, worldTime: real)
    requires s.Valid()
    requires s.moveTimer + delta >= Accelerated(s.speed, worldTime)
    ensures var r := Stepped(s, delta, worldTime);
      && r.moveTimer == 0.0
      && r.dir == NextHeading(s.xs[0], s.ys[0], s.dir)
      && (CanMove(s.xs[0], s.ys[0], s.dir) ==> r.dir == s.dir)
      && r.xs[0] == s.xs[0] + StepX(r.dir) && r.ys[0] == s.ys[0] + StepY(r.dir)
      && ((r.xs[0] == s.xs[0] && (r.ys[0] == s.ys[0] + CellHeight || r.ys[0] == s.ys[0] - CellHeight))
       || (r.ys[0] == s.ys[0] && (r.xs[0] == s.xs[0] + CellWidth || r.xs[0] == s.xs[0] - CellWidth)))
      && (forall i :: 1 <= i < s.length ==> r.xs[i] == s.xs[i - 1] && r.ys[i] == s.ys[i - 1])
      && (forall i :: s.length <= i < Capacity ==> r.xs[i] == s.xs[i] && r.ys[i] == s.ys[i])
  {
  }

  /** A head on the grid is still on the grid after MoveSnake. */
  lemma StepKeepsHeadOnGrid(s: SnakeState, delta: real, worldTime: real)
    requires s.Valid() && s.HeadOnGrid()
    ensures Stepped(s, delta, worldTime).HeadOnGrid()
  {
    StepStaysOnGrid(s.xs[0], s.ys[0], s.dir);
  }
}
