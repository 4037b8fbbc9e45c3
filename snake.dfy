/** struct Snake and the functions that update it through a pointer: two
    100-slot coordinate arrays changed in place, the length, the heading and the
    two timers. Every method is proved against its counterpart in SnakeSpec. */
module SnakeBody {
  import opened Geometry
  import opened SnakeSpec

  class Snake {
    const x: array<int>
    const y: array<int>
    var length: int
    var dir: Direction
    var moveTimer: real
    var speed: real

    ghost predicate Valid()
      reads this
    {
      x.Length == Capacity && y.Length == Capacity && x != y && 1 <= length <= Capacity
    }

    /** The value this snake stands for. */
    ghost function State(): (s: SnakeState)
      reads this, x, y
      requires Valid()
      ensures s.Valid()
    {
      SnakeState(x[..], y[..], length, dir, moveTimer, speed)
    }

    /** A snake whose arrays start zeroed, then put through ResetGame. */
    constructor ()
      ensures Valid() && fresh(x) && fresh(y)
      ensures State() == SnakeState(
        seq(Capacity, i => if i == 0 then GameWidth / 2 else 0),
        seq(Capacity, i => if i == 0 then ScreenHeight / 2 else 0),
        StartLength, Right, 0.0, BaseSpeed)
    {
      x := new int[Capacity](_ => 0);
      y := new int[Capacity](_ => 0);
      new;
      x[0] := GameWidth / 2;
      y[0] := ScreenHeight / 2;
      length := StartLength;
      dir := Right;
      moveTimer := 0.0;
      speed := BaseSpeed;
    }

    /** The snake half of ResetGame. */
    method Reset()
      requires Valid()
      modifies this, x, y
      ensures Valid() && State() == SnakeSpec.Reset(old(State()))
    {
      length := StartLength;
      x[0] := GameWidth / 2;
      y[0] := ScreenHeight / 2;
      dir := Right;
      moveTimer := 0.0;
      speed := BaseSpeed;
    }

    /** TurnSnake. */
    method Turn()
      requires Valid()
      modifies this`dir
      ensures Valid() && State() == old(State()).(dir := Turned(x[0], y[0], old(dir)))
    {
      match dir
      case Up =>
        if CanMove(x[0], y[0], Right) {
          dir := Right;
        } else if CanMove(x[0], y[0], Left) {
          dir := Left;
        }
      case Down =>
        if CanMove(x[0], y[0], Left) {
          dir := Left;
        } else if CanMove(x[0], y[0], Right) {
          dir := Right;
        }
      case Left =>
        if CanMove(x[0], y[0], Down) {
          dir := Down;
        } else if CanMove(x[0], y[0], Up) {
          dir := Up;
        }
      case Right =>
        if CanMove(x[0], y[0], Up) {
          dir := Up;
        } else if CanMove(x[0], y[0], Down) {
          dir := Down;
        }
    }

    /** MoveSnake: the body is shifted in place from the tail down to slot 1
        before the head moves. */
    method Move(delta: real, worldTime: real)
      requires Valid()
      modifies this, x, y
      ensures Valid() && State() == Stepped(old(State()), delta, worldTime)
    {
      Accelerate(worldTime);

      moveTimer := moveTimer + delta;
      if moveTimer < speed {
        return;
      }

      Advance();
    }

    /** MoveSnake once its timer has run out. */
    method Advance()
      requires Valid()
      modifies this, x, y
      ensures Valid() && State() == Advanced(old(State()))
    {
      ghost var s := old(State());
      moveTimer := 0.0;

      if !CanMove(x[0], y[0], dir) {
        Turn();
      }
      assert dir == NextHeading(s.xs[0], s.ys[0], s.dir);
      assert x[..] == s.xs && y[..] == s.ys;
      Slide();
    }

    /** The first part of MoveSnake: the speed-up curve, applied only past
        30 seconds. */
    method Accelerate(worldTime: real)
      requires Valid()
      modifies this`speed
      ensures speed == Accelerated(old(speed), worldTime)
    {
      if worldTime > SpeedupInterval {
        var speedups := (worldTime / SpeedupInterval).Floor;
        speed := BaseSpeed - SpeedupFactor * BaseSpeed * speedups as real;
        if speed < MinSpeed {
          speed := MinSpeed;
        }
      }
    }

    /** The body follows its head and the head moves one cell in the heading. */
    method Slide()
      requires Valid()
      modifies x, y
      ensures x[..] == ShiftBody(old(x[..]), length)[0 := old(x[..])[0] + StepX(dir)]
      ensures y[..] == ShiftBody(old(y[..]), length)[0 := old(y[..])[0] + StepY(dir)]
    {
      ShiftSegments();
      MoveHead();
    }

    /** The last part of MoveSnake: the head moves one cell in the heading. */
    method MoveHead()
      requires Valid()
      modifies x, y
      ensures x[..] == old(x[..])[0 := old(x[..])[0] + StepX(dir)]
      ensures y[..] == old(y[..])[0 := old(y[..])[0] + StepY(dir)]
    {
      match dir
      case Up => y[0] := y[0] - CellHeight;
      case Down => y[0] := y[0] + CellHeight;
      case Left => x[0] := x[0] - CellWidth;
      case Right => x[0] := x[0] + CellWidth;
    }

    /** The loop of MoveSnake: from the tail down to slot 1, each slot takes the
        coordinates of the one before it. */
    method ShiftSegments()
      requires Valid()
      modifies x, y
      ensures x[..] == ShiftBody(old(x[..]), length) && y[..] == ShiftBody(old(y[..]), length)
    {
      var i := length - 1;
      while i > 0
        invariant 0 <= i <= length - 1
        invariant forall k :: 0 <= k <= i ==> x[k] == old(x[k]) && y[k] == old(y[k])
        invariant forall k :: i < k < length ==> x[k] == old(x[k - 1]) && y[k] == old(y[k - 1])
        invariant forall k :: length <= k < Capacity ==> x[k] == old(x[k]) && y[k] == old(y[k])
      {
        x[i] := x[i - 1];
        y[i] := y[i - 1];
        i := i - 1;
      }
    }

    /** IncreaseSnakeLength. */
    method Grow()
      requires Valid()
      modifies this`length
      ensures Valid() && State() == Grown(old(State()))
    {
      if length < Capacity {
        length := length + 1;
      }
    }

    /** ShortenSnake. */
    method Shorten(amount: int)
      requires Valid() && amount >= 0
      modifies this`length
      ensures Valid() && State() == Shortened(old(State()), amount)
    {
      if length > amount {
        length := length - amount;
      } else {
        length := 1;
      }
    }

    /** ApplySlowdownEffect. */
    method Slowdown(factor: real)
      requires Valid()
      modifies this`speed
      ensures Valid() && State() == SlowedDown(old(State()), factor)
    {
      speed := speed * factor;
    }

    /** CheckIfSnakeHitItself: scans the body for a segment on the head's cell. */
    method HitItself() returns (hit: bool)
      requires Valid()
      ensures hit <==> exists i :: 1 <= i < length && x[i] == x[0] && y[i] == y[0]
      ensures hit == SelfHit(State())
    {
      var i := 1;
      while i < length
        invariant 1 <= i <= length
        invariant forall k :: 1 <= k < i ==> !(x[k] == x[0] && y[k] == y[0])
      {
        if x[0] == x[i] && y[0] == y[i] {
          return true;
        }
        i := i + 1;
      }
      return false;
    }

    /** CheckIfSnakeAtePoint and CheckIfSnakeAteRedPoint: the head is on (px, py). */
    predicate HeadIsAt(px: int, py: int)
      reads this, x, y
      requires Valid()
      ensures HeadIsAt(px, py) <==> HeadAt(State(), px, py)
    {
      x[0] == px && y[0] == py
    }
  }
}
