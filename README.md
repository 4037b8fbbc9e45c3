# Snake game simulation, modelled and verified in Dafny

This project models the simulation core of a small SDL snake game (`main.cpp`)
with rendering, window set-up and event polling stripped away. The play-field
is 480 x 480 pixels in 20 x 20 cells. A snake of up to 100 segments moves one
cell each time its move timer reaches its step interval, and the interval
shortens every 30 seconds. The snake grows when it eats the food. A red
"hazard" point appears for 5 seconds, goes away for 3 to 9 seconds, and
returns with one of two effects: shorten the snake by one, or multiply its
step interval by 1.5. If the snake hits itself, the game-over screen runs.

Modules:

- `Geometry` (`geometry.dfy`): the field constants, `Direction`, the boundary
  test `CanMove` and the forced turn of `TurnSnake` as pure functions of the
  head's cell.
- `SnakeSpec` (`snake_spec.dfy`): the snake as a value (`SnakeState`: both
  coordinate arrays as 100-element sequences, length, heading, move timer,
  speed). It gives the effect of `MoveSnake`, `IncreaseSnakeLength`,
  `ShortenSnake`, `ApplySlowdownEffect`, `ResetGame` and the self-hit test,
  with lemmas about them.
- `Points` (`points.dfy`): `Point`, `redPoint`, the generators and the red
  point's life cycle (eaten, expiry countdown, respawn).
- `SnakeBody` (`snake.dfy`): `struct Snake` as a class over two `array<int>`
  of 100 slots. Its methods change the arrays in place, as the C functions do
  through their pointer. Each method is proved against its `SnakeSpec`
  counterpart. `CheckIfSnakeHitItself` is a read-only scanning loop.
- `GameSpec` (`game_spec.dfy`): one pass of the loop of `GameLoop` as the
  function `Frame`. It applies the key events, the self-hit test with the
  outcome of the game-over screen, `MoveSnake`, the food test, the red point
  test and the red point's timer. Lemmas about the whole frame sit beside it.
- `GameLoop` (`game.dfy`): the locals of `GameLoop` as the class `Game`.
  `Tick` performs one pass of the loop in place and is proved equal to
  `Frame`. It also keeps the invariant `Playable`: the snake is well-formed
  with its head on the grid, the food is on the grid, and the red point satisfies
  `RedPointOk`: one of the two effects with the constants `GenerateRedPoint`
  sets, on the grid with time left while active, delay left while inactive
  (an eaten point sits parked at x = 900).

Time is a Dafny `real` with exact arithmetic. The `rand()` results come in as
natural-number parameters (`Rolls` for a frame), and the source's `% 24`,
`% 2 + 1` and `% 7 + 3` are applied to them as in the code. Each frame takes
its elapsed time `delta`, its polled events, and the key that ends the
game-over screen as inputs.

Behaviours of the code that the model reproduces on purpose:

- `ResetGame` re-seats only the head. Slots 1..99 keep their old coordinates.
- The game-over path (`N` on the game-over screen) does not zero the score.
  `N` during play does.
- Neither reset regenerates the food or the red point.
- `CheckIfSnakeAteRedPoint` does not look at `active`. An expired point keeps
  its cell, so it can still be eaten, with its effect and a point scored.
  Only the eaten branch parks the point at x = 900.
- The step interval is recomputed only once `worldTime` exceeds 30 s. Until
  then, a slowdown multiplier stays in force.
- `MoveSnake` resets its timer to 0 instead of subtracting the interval. So
  a very large `delta` still moves the snake exactly one cell.
- Each arrow key is checked against the heading at the moment the key is
  read. Two keys polled in one frame can therefore reverse the snake.

## Model

| member | source | states |
|---|---|---|
| Geometry.CanMove | main.cpp:157-169 | for a head on the grid, the test holds exactly when the cell one step away in that direction is still on the grid |
| Geometry.Turned | main.cpp:171-206 | the heading after TurnSnake is the first entry of the fixed table (Up: Right, Left; Down: Left, Right; Left: Down, Up; Right: Up, Down) that can move; it is unchanged exactly when neither entry can move; a new heading is perpendicular to the old one |
| Geometry.TurnedUnblocks | main.cpp:171-206 | on the grid, a blocked heading is always replaced by one of its two table entries, and that entry can move |
| Geometry.StepStaysOnGrid | main.cpp:226-248 | a head on the grid, stepping in the heading MoveSnake chooses (turned if blocked), lands on the grid |
| Geometry.NextHeading | main.cpp:226-228 | the heading MoveSnake steps in is the current one when it can move, otherwise one of the two table entries or the current one, and never the reverse of the current one |
| SnakeSpec.SpeedCurve | main.cpp:209-217 | past 30 s the step interval lies in [0.02, 0.08]; it equals the 0.02 floor exactly when worldTime is at least 120 s |
| SnakeSpec.SpeedCurveNonIncreasing | main.cpp:211-216 | as worldTime grows past 30 s, the interval never grows |
| SnakeSpec.SpeedCurveMilestone | main.cpp:211-216 | during the k-th whole 30 s (k from 1 to 4), the interval is 0.1 - 0.02 k |
| SnakeSpec.Accelerated | main.cpp:209-217 | the interval is kept up to 30 s; past 30 s it is recomputed to a value in [0.02, 0.08] |
| SnakeSpec.ShiftBody | main.cpp:230-233 | after the downward copy loop, slot i (1 <= i < length) holds old slot i - 1; slot 0 and the slots from length on are unchanged |
| SnakeSpec.Stepped | main.cpp:208-249 | MoveSnake keeps the snake well-formed and leaves the length alone |
| SnakeSpec.Advanced | main.cpp:224-248 | once the timer has run out: timer 0, interval and length kept, heading as NextHeading picks it, head one cell further in that heading |
| SnakeSpec.StepSpeed | main.cpp:209-217 | the interval after MoveSnake is the curve's value past 30 s, and otherwise the interval the snake already had |
| SnakeSpec.StepWaits | main.cpp:219-222 | if the timer plus delta stays below the interval, only the timer and the interval change; body, length and heading do not |
| SnakeSpec.StepMovesOneCell | main.cpp:224-248 | otherwise, however large delta is, the timer becomes exactly 0, the heading becomes the one TurnSnake leaves when blocked (kept when not blocked), the head moves exactly one cell in that heading, each segment 1 <= i < length takes the old place of segment i - 1, and slots from length on are untouched |
| SnakeSpec.StepKeepsHeadOnGrid | main.cpp:226-248 | a head on the grid is still on the grid after MoveSnake |
| SnakeSpec.HalfIntervalTwiceStepsOnce | main.cpp:209-224 | while the interval stays the same between the calls (always below 30 s, and within each 30 s band above), half the interval fed twice from a zero timer gives exactly one move: the first call only accumulates, the second moves the head |
| SnakeSpec.SlowdownPersists | main.cpp:307-310 | below 30 s, the 1.5 (or any) multiplier set by ApplySlowdownEffect survives MoveSnake |
| SnakeSpec.SlowdownOverwritten | main.cpp:211-217 | past 30 s, MoveSnake replaces the multiplied interval with the curve's value |
| SnakeSpec.Grown | main.cpp:330-334 | the length becomes length + 1 below 100 and stays 100 at 100; nothing else changes; the length stays in [1, 100] |
| SnakeSpec.Shortened | main.cpp:298-305 | the length becomes max(1, length - amount); nothing else changes; the length stays in [1, 100] |
| SnakeSpec.SlowedDown | main.cpp:307-310 | only the interval changes; a factor of at least 1 never shortens it; the snake stays well-formed |
| SnakeSpec.Reset | main.cpp:257-265 | length 4, head (240, 240), heading right, timer 0, interval 0.1; slots 1..99 of both arrays keep their old values |
| SnakeSpec.SelfHit | main.cpp:346-354 | the self-hit test; it can only hold for a snake of at least two segments |
| SnakeSpec.HeadAt | main.cpp:313-326 | both eat tests; when it holds, the head is on the grid exactly when the tested cell is |
| Points.RandomPoint | main.cpp:317-322 | a generated point is cell-aligned, with both coordinates multiples of 20 in [0, 460] |
| Points.RandomPointCoversGrid | main.cpp:317-322 | every cell of the grid is generated by some rolls |
| Points.GenerateRedPoint | main.cpp:285-296 | a new red point is on the grid, active, with timer 5, spawnDelay 0, effect 1 or 2, shortenAmount 1 and slowdownFactor 1.5 |
| Points.RespawnDelay | main.cpp:473 | a respawn delay is a whole number of seconds in [3, 9] |
| Points.Eaten | main.cpp:471-473 | an eaten red point becomes inactive, is parked at x = 900 and gets a delay in [3, 9]; its other fields are unchanged |
| Points.Countdown | main.cpp:477-489 | an active point counts down and, at or below 0, turns inactive in place with a delay in [3, 9]; an inactive point counts its delay down and, at or below 0, is replaced by a freshly generated point |
| Points.RedPointLifecycleOk | main.cpp:464-489 | generation, eating and the countdown keep the red point consistent: effect 1 or 2, its constants, on the grid with time left while active, delay left while inactive |
| Points.EatenPointOutOfReach | main.cpp:472 | once eaten, the red point is off the grid, so no head on the grid can eat it again before it respawns |
| Points.ExpiredPointStaysInPlace | main.cpp:477-482 | an expired red point is inactive but stays on its cell of the grid |
| GameSpec.Steer | main.cpp:428-439 | an arrow key sets the requested heading exactly when it is not the reverse of the current one, otherwise the heading stays, so one key never reverses the snake |
| GameSpec.ResetGame | main.cpp:257-265 | the snake is reset (length 4, head on the grid) and worldTime becomes 0; score, food, red point and quit are unchanged |
| GameSpec.ApplyEvent | main.cpp:422-449 | handling one event keeps the snake well-formed and never touches the food or the red point |
| GameSpec.ApplyEvents | main.cpp:422-448 | the events of a frame, in order, keep the snake well-formed and never touch the food or the red point |
| GameSpec.EventsOutcome | main.cpp:422-449 | after a frame's events: score and worldTime are 0 if N was pressed and unchanged otherwise; quit is set exactly when Esc was pressed or the window was closed; the length is 4 after N and unchanged otherwise; no event moves the body, and a head on the grid stays there |
| GameSpec.TwoKeysReverseHeading | main.cpp:428-439 | Up then Left, polled in one frame while heading right, leaves the snake heading left |
| GameSpec.ApplyEffect | main.cpp:465-470 | the red point's effect (shorten or slow down) keeps the snake well-formed |
| GameSpec.GameOver | main.cpp:356-387 | the outcome of the game-over screen keeps score, food and red point; Esc only sets quit; N keeps quit and resets the snake to length 4 and worldTime to 0 |
| GameSpec.EatFood | main.cpp:458-462 | on the food: score + 1, the snake grown, new food from the rolls; off the food: nothing changes; the red point is never touched |
| GameSpec.EatRedPoint | main.cpp:464-475 | on the red point: score + 1, the effect applied, the point eaten; off it: nothing changes; the food is never touched |
| GameSpec.Simulate | main.cpp:456-489 | the score rises by at most two; quit and worldTime are unchanged; the snake stays well-formed |
| GameSpec.Frame | main.cpp:409-489 | one pass of the game loop keeps the snake well-formed |
| GameSpec.FrameKeepsPlayable | main.cpp:409-489 | every frame keeps the game playable: snake well-formed with its head on the grid, food on the grid, red point consistent |
| GameSpec.SimulateKeepsPlayable | main.cpp:456-489 | the step, the food test, the red point test and the countdown keep the game playable |
| GameSpec.FrameOnSelfHit | main.cpp:451-454 | when the snake has hit itself, nothing else happens in the frame; Esc sets quit; N resets snake and worldTime and keeps the score, the food and the red point |
| GameSpec.FrameScore | main.cpp:443-475 | the score after a frame is between its start value and two more; the start value is 0 if N was pressed during the frame |
| GameSpec.FrameQuit | main.cpp:422-454 | the game quits after a frame exactly when Esc was pressed or the window was closed during it, or the snake hit itself and Esc ended the game-over screen |
| GameSpec.FrameEatsFood | main.cpp:458-462 | with the head on the food (and not on the red point), the score goes up by one, the length by one up to 100, and the food is regenerated from the rolls |
| GameSpec.FrameEatsInactiveRedPoint | main.cpp:313-315 | with the head on an inactive red point's cell, the point is still eaten: its effect is applied and the score goes up by one |
| SnakeBody.Snake.constructor | main.cpp:394-399 | a fresh snake with zeroed arrays after ResetGame: head (240, 240), length 4, heading right |
| SnakeBody.Snake.Reset | main.cpp:257-265 | changes the snake exactly as SnakeSpec.Reset describes |
| SnakeBody.Snake.Turn | main.cpp:171-206 | sets the heading to Geometry.Turned of the head and the old heading and changes nothing else |
| SnakeBody.Snake.Move | main.cpp:208-249 | changes the arrays and fields in place exactly as SnakeSpec.Stepped describes |
| SnakeBody.Snake.Advance | main.cpp:224-248 | once the timer has run out: timer to 0, heading turned if blocked, body shifted in place, head moved, as SnakeSpec.Advanced describes |
| SnakeBody.Snake.Accelerate | main.cpp:209-217 | sets the interval to SnakeSpec.Accelerated of the old one |
| SnakeBody.Snake.Slide | main.cpp:230-248 | the arrays become the shifted body with the head moved one cell in the heading |
| SnakeBody.Snake.MoveHead | main.cpp:235-248 | only slot 0 of one array changes, by one cell in the heading |
| SnakeBody.Snake.ShiftSegments | main.cpp:230-233 | the in-place downward loop leaves both arrays equal to SnakeSpec.ShiftBody of their old contents |
| SnakeBody.Snake.Grow | main.cpp:330-334 | changes the length exactly as SnakeSpec.Grown describes |
| SnakeBody.Snake.Shorten | main.cpp:298-305 | changes the length exactly as SnakeSpec.Shortened describes |
| SnakeBody.Snake.Slowdown | main.cpp:307-310 | multiplies the step interval by the factor and changes nothing else |
| SnakeBody.Snake.HitItself | main.cpp:346-354 | returns true exactly when some segment i with 1 <= i < length is on the head's cell |
| SnakeBody.Snake.HeadIsAt | main.cpp:313-326 | the in-place eat test agrees with SnakeSpec.HeadAt on the snake's value |
| GameLoop.Game.constructor | main.cpp:389-406 | food and red point generated from the rolls, the snake reset, score and worldTime 0, quit false; the game starts playable |
| GameLoop.Game.ResetGame | main.cpp:257-265 | resets the snake and sets worldTime to 0; the score, the food and the red point are not touched |
| GameLoop.Game.HandleEvent | main.cpp:422-449 | handles one event exactly as GameSpec.ApplyEvent describes |
| GameLoop.Game.HandleEvents | main.cpp:422-449 | handles the polled events in order, as GameSpec.ApplyEvents describes |
| GameLoop.Game.EatRedPoint | main.cpp:464-475 | the red point test and its eaten branch, as GameSpec.EatRedPoint describes |
| GameLoop.Game.CountdownRedPoint | main.cpp:477-489 | updates the red point exactly as Points.Countdown describes |
| GameLoop.Game.Simulate | main.cpp:456-489 | MoveSnake, the food test, the red point test and the countdown, as GameSpec.Simulate describes |
| GameLoop.Game.ShowGameOver | main.cpp:356-387 | changes the game exactly as GameSpec.GameOver describes for the key that ends the wait |
| GameLoop.Game.Tick | main.cpp:409-489 | one pass of the loop changes the game exactly as GameSpec.Frame describes and keeps it playable |

## Left out

- Drawing, text, the progress bar and the side panel (`DrawString` to `RenderGame`, `RenderSnake`, `RenderPoint`, `RenderRedPoint`) are pixel output through SDL and are not modelled.
- `InitializeSDL`, `LoadCharset` and `main` (window, texture and file set-up) are not modelled.
- `SDL_GetTicks` and the frames-per-second counter are not modelled. The elapsed time `delta` is an input of `Tick`. The model does not require `delta` to be a whole number of milliseconds.
- `SDL_PollEvent` is not modelled. The events of a frame are an input of `Tick`.
- The busy-wait of `HandleGameOver` is modelled only by its outcome, `GameOverChoice`: Esc (quit) or N (reset). A wait that never ends is not modelled. The time spent waiting reaches the next frame only through the caller's `delta`.
- GameSpec.GameOver: when Esc and N are queued in the same batch of the game-over screen, the inner `while (SDL_PollEvent(...))` handles both, so the source both sets quit and resets the snake and worldTime; `GameOverChoice` holds one of the two, so for such a batch the `QuitGame` outcome (and the clause of `FrameOnSelfHit` that the snake is unchanged) misses the reset. The loop ends on quit right after, so the lost reset is never seen in play.
- `rand()` is not modelled as a generator. Its results are caller-supplied natural numbers, and the bound `RAND_MAX` is not modelled. One roll serves both the eaten and the expiry respawn delay, because the two branches never run in the same frame.
- IEEE-754 double rounding is not modelled: time and speed are exact reals. The `(int)` cast of `worldTime / 30` is modelled as floor, which agrees with truncation because `worldTime` is above 30 there.
- SnakeBody.Snake.constructor: the aggregate initialiser of `Snake` leaves 240, 3 and 0 in `x[1..3]`, and the constructor here zero-fills those slots instead. From `ResetGame` on, the two agree except in those stale slots.
- SnakeBody.Snake.Shorten: requires `amount >= 0`. The only call passes the red point's `shortenAmount`, which is always 1. A negative amount would lengthen the snake past the 100 slots.
- 32-bit overflow of `score` and the coordinates is not modelled. Each frame adds at most two to the score, and coordinates stay within the field.
- The loop's exit on `quit` is modelled as the precondition `!quit` of `Tick`.
