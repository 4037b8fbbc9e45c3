/** The state GameLoop keeps in its locals (the snake, the food, the red point,
    the score, worldTime and quit) as one object, and one pass of its loop as
    the method Tick. */
module GameLoop {
  import opened Geometry
  import opened SnakeSpec
  import opened Points
  import opened SnakeBody
  import opened GameSpec

  class Game {
    const snake: Snake
    var point: Point
    var redpoint: RedPoint
    var score: int
    var worldTime: real
    var quit: bool

    ghost function State(): GameState
      reads this, snake, snake.x, snake.y
      requires snake.Valid()
    {
      GameState(snake.State(), point, redpoint, score, worldTime, quit)
    }

    ghost predicate Valid()
      reads this, snake, snake.x, snake.y
    {
      snake.Valid() && Playable(State())
    }

    /** The set-up of GameLoop: food and red point generated from the rolls, the
        snake reset, worldTime and score at zero. */
    constructor (foodX: nat, foodY: nat, redX: nat, redY: nat, redEffect: nat)
      ensures Valid() && fresh(snake) && fresh(snake.x) && fresh(snake.y)
      ensures snake.State() == SnakeState(
        seq(Capacity, i => if i == 0 then GameWidth / 2 else 0),
        seq(Capacity, i => if i == 0 then ScreenHeight / 2 else 0),
        StartLength, Right, 0.0, BaseSpeed)
      ensures point == RandomPoint(foodX, foodY)
      ensures redpoint == GenerateRedPoint(redX, redY, redEffect)
      ensures score == 0 && worldTime == 0.0 && !quit
    {
      snake := new Snake();
      point := RandomPoint(foodX, foodY);
      redpoint := GenerateRedPoint(redX, redY, redEffect);
      worldTime := 0.0;
      score := 0;
      quit := false;
    }

    /** ResetGame. */
    method ResetGame()
      requires snake.Valid()
      modifies this, snake, snake.x, snake.y
      ensures snake.Valid() && State() == GameSpec.ResetGame(old(State()))
    {
      snake.Reset();
      worldTime := 0.0;
    }

    /** The handling of one polled event. */
    method HandleEvent(e: Event)
      requires snake.Valid()
      modifies this, snake, snake.x, snake.y
      ensures snake.Valid() && State() == ApplyEvent(old(State()), e)
    {
      match e
      case WindowClosed =>
        quit := true;
      case OtherEvent =>
      case KeyPressed(k) =>
        match k
        case ArrowUp =>
          if snake.dir != Down { snake.dir := Up; }
        case ArrowDown =>
          if snake.dir != Up { snake.dir := Down; }
        case ArrowLeft =>
          if snake.dir != Right { snake.dir := Left; }
        case ArrowRight =>
          if snake.dir != Left { snake.dir := Right; }
        case Escape =>
          quit := true;
        case KeyN =>
          ResetGame();
          score := 0;
        case OtherKey =>
    }

    /** The event loop: every event polled in this frame, in order. */
    method HandleEvents(events: seq<Event>)
      requires snake.Valid()
      modifies this, snake, snake.x, snake.y
      ensures snake.Valid() && State() == ApplyEvents(old(State()), events)
    {
      var i := 0;
      while i < |events|
        invariant 0 <= i <= |events|
        invariant snake.Valid() && State() == ApplyEvents(old(State()), events[..i])
      {
        HandleEvent(events[i]);
        assert events[..i + 1][..i] == events[..i];
        i := i + 1;
      }
      assert events[..i] == events;
    }

    /** The red point test and its eaten branch. */
    method EatRedPoint(rolls: Rolls)
      requires snake.Valid() && Consistent(State())
      modifies this, snake, snake.x, snake.y
      ensures snake.Valid() && State() == GameSpec.EatRedPoint(old(State()), rolls)
    {
      if snake.HeadIsAt(redpoint.x, redpoint.y) {
        if redpoint.effectType == ShortenEffect {
          snake.Shorten(redpoint.shortenAmount);
        } else if redpoint.effectType == SlowdownEffect {
          snake.Slowdown(redpoint.slowdownFactor);
        }
        redpoint := redpoint.(active := false);
        redpoint := redpoint.(x := ParkedX);
        redpoint := redpoint.(spawnDelay := RespawnDelay(rolls.redDelay));
        score := score + 1;
      }
    }

    /** The red point's timer at the end of the frame. */
    method CountdownRedPoint(delta: real, rolls: Rolls)
      modifies this`redpoint
      ensures redpoint == Countdown(old(redpoint), delta, rolls.redDelay, rolls.redX, rolls.redY, rolls.redEffect)
    {
      if redpoint.active {
        redpoint := redpoint.(timer := redpoint.timer - delta);
        if redpoint.timer <= 0.0 {
          redpoint := redpoint.(active := false);
          redpoint := redpoint.(spawnDelay := RespawnDelay(rolls.redDelay));
        }
      } else {
        redpoint := redpoint.(spawnDelay := redpoint.spawnDelay - delta);
        if redpoint.spawnDelay <= 0.0 {
          redpoint := GenerateRedPoint(rolls.redX, rolls.redY, rolls.redEffect);
        }
      }
    }

    /** The frame from MoveSnake on: the step, the food test, the red point
        test and the red point's timer. */
    method Simulate(delta: real, rolls: Rolls)
      requires snake.Valid() && Consistent(State())
      modifies this, snake, snake.x, snake.y
      ensures snake.Valid() && State() == GameSpec.Simulate(old(State()), delta, rolls)
    {
      snake.Move(delta, worldTime);

      if snake.HeadIsAt(point.x, point.y) {
        snake.Grow();
        point := RandomPoint(rolls.foodX, rolls.foodY);
        score := score + 1;
      }

      EatRedPoint(rolls);
      CountdownRedPoint(delta, rolls);
    }

    /** The outcome of HandleGameOver, given the key that ends its wait. */
    method ShowGameOver(choice: GameOverChoice)
      requires snake.Valid()
      modifies this, snake, snake.x, snake.y
      ensures snake.Valid() && State() == GameOver(old(State()), choice)
    {
      match choice
      case QuitGame =>
        quit := true;
      case NewGame =>
        ResetGame();
    }

    /** One pass of the loop of GameLoop, with the time elapsed since the last
        one, the events polled, the values rand() returns and the key that ends
        the game-over screen if the snake has hit itself. */
    method Tick(delta: real, events: seq<Event>, rolls: Rolls, choice: GameOverChoice)
      requires Valid() && !quit
      modifies this, snake, snake.x, snake.y
      ensures Valid() && State() == Frame(old(State()), delta, events, rolls, choice)
    {
      ghost var g := State();
      ghost var polled := ApplyEvents(g.(worldTime := g.worldTime + delta), events);
      ghost var f := Frame(g, delta, events, rolls, choice);
      FrameKeepsPlayable(g, delta, events, rolls, choice);
      assert Playable(f);

      worldTime := worldTime + delta;
      HandleEvents(events);
      assert State() == polled;

      var hit := snake.HitItself();
      if hit {
        assert f == GameOver(polled, choice);
        ShowGameOver(choice);
        return;
      }

      assert f == GameSpec.Simulate(polled, delta, rolls);
      Simulate(delta, rolls);
    }
  }
}
