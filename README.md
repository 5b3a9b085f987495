# Flappy Bird game core in Dafny

This project models the game core of `flappy_bird.py`, a one-file pygame
clone of Flappy Bird. It leaves out the drawing and the window plumbing.
Three classes carry the game:

- a **Bird** that falls under gravity, flaps upward and fails when it touches
  the top or bottom of the 800×600 screen;
- a **Pipe** obstacle that slides left by 3 per frame, with a 200-pixel gap at
  a random height, scored once when the bird has passed it and dropped once
  it has left the screen;
- a **Game** session with a three-state machine (start, playing, game over)
  driven by input events, a reset, and the per-frame update. The update steps
  the bird, then appends a new pipe at the right edge when more than 1500 ms
  have passed since the last spawn (checked once per frame), then walks a
  copy of the pipe list. For each pipe it advances the pipe, tests for a
  collision, scores it and removes it from the live list when it is off
  screen.

The model keeps that imperative shape. `Birds.Bird`, `Pipes.Pipe` and
`Games.Game` are Dafny classes whose methods update their fields in place.
The pipe list is a `seq<Pipe>` field. A spawned pipe is appended to it
before the walk, and off-screen pipes are removed from it inside the loop
over its copy, as the source does. Each class has a `View()`
function that gives its state as a value (`BirdView`, `PipeView`,
`GameView`). Each method is proved to act on that view exactly as a
specification function on values says:

- `Stepped` and `Flapped` for the bird;
- `NewPipe`, `Moved`, `Hits` and `OffScreen` for a pipe;
- `Step`, `HandleAll`, `Prelude`, `Advance` and `Tick` for the session.

The game's properties are proved as lemmas about those functions: the state
machine, scoring, spawning, the filter the copy-iteration performs, and the
worked numbers.

Module layout:

| file | module | what |
|---|---|---|
| constants.dfy | `Constants` | screen size, gravity, flap strength, pipe speed, gap, spawn interval, sizes |
| geometry.dfy | `Geometry` | the part of `pygame.Rect` used: integer rectangles, `colliderect`, float-to-int coordinates |
| bird.dfy | `Birds` | class `Bird` and its value-level rules |
| pipe.dfy | `Pipes` | class `Pipe` and its value-level rules |
| stream.dfy | `Stream` | the list of pipes that one frame walks: advance, one-shot scoring, removal during iteration |
| game_rules.dfy | `GameRules` | states, events, the session as a value, event handling and the tick as functions, and their lemmas |
| game.dfy | `Games` | class `Game`: `reset_game`, `handle_events` and `update` as methods on the live objects |

Modelling choices:

- `y`, `velocity` and `rotation` are `real`. All constants are integers or
  halves, so every value the game computes is an exact multiple of 0.5, and
  exact reals describe the floats without rounding. Pipe `x`, the score and
  the times are `int`; the score is a `nat`.
- `random.randint(100, 300)` becomes a parameter `top` with the precondition
  `100 <= top <= 300`. `pygame.time.get_ticks()` becomes a parameter `now`.
- A `pygame.Rect` stores integer coordinates, so the bird's fractional
  corner is converted when its hitbox is built. The model makes that
  conversion the named helper `Geometry.RectCoord`, under the stated
  assumption that it truncates toward zero. `colliderect` is strict overlap
  on both axes: rectangles that only share an edge do not collide.
- The event batch from `pygame.event.get()` is a `seq<Event>`. `Event` has
  the cases `Quit`, `KeyDown(isSpace)`, `MouseButtonDown` and `OtherEvent`.
- `list.remove(pipe)` removes the first element equal to `pipe`. Pipes are
  compared as objects, and `Game.Valid()` keeps the live list free of
  repeats.
- A boundary hit does not cut the frame short. flappy_bird.py:165-166 only
  sets the state to game over; the spawn, the pipe walk, the collisions,
  the scoring and the removals of lines 168-189 still run in that frame.
  The model follows the code (`GameRules.BoundaryHitFinishesTick`).
- A pipe spawned in a frame is appended before the walk starts, so it moves
  in that same frame and ends it at x = 797
  (`GameRules.SpawnedPipeMovesAtOnce`).

## Model

| member | source | states |
|---|---|---|
| Geometry.CollideRect | flappy_bird.py:110 | definition: colliderect as strict overlap on both axes; `Pipes.Hits` and the collision lemmas are stated with it |
| Geometry.RectCoord | flappy_bird.py:66-67 | the integer coordinate pygame.Rect keeps for a float is within one unit of it, toward zero (truncation, stated as an assumption) |
| Geometry.OverlapIsSharedPixel | flappy_bird.py:110 | for rectangles of positive size, colliderect's strict-overlap test holds exactly when the two rectangles share a pixel |
| Birds.Flapped | flappy_bird.py:38-39 | definition of flap on the bird's view; `Birds.Bird.Flap` is proved equal to it |
| Birds.Stepped | flappy_bird.py:41-47 | definition of one update on the bird's view; `Birds.Bird.Update` is proved equal to it, and `FallClosedForm` iterates it |
| Birds.HitsBoundary | flappy_bird.py:69-73 | definition of check_boundaries on the bird's view; `Birds.Bird.CheckBoundaries` and `BoundaryAndHitbox` are stated with it |
| Birds.Tilt | flappy_bird.py:47 | the rotation is -3·velocity clamped to [-30, 30]: always in range, equal to -3·velocity inside it, and 30 or -30 beyond either end |
| Birds.TiltMonotone | flappy_bird.py:47 | a faster fall never gives a larger (more upward) rotation |
| Birds.FallClosedForm | flappy_bird.py:41-47 | n updates without a flap: x unchanged, velocity v + n·0.5, y advanced by n·v + 0.5·n(n+1)/2 |
| Birds.BirdRect | flappy_bird.py:65-67 | the hitbox is a 40×40 square with left edge x - 20 and top edge within one unit of y - 20 |
| Birds.BoundaryAndHitbox | flappy_bird.py:65-73 | a bird that passes the boundary test has its whole hitbox on screen; one that fails it has a hitbox reaching y ≤ 0 or y ≥ 600 |
| Birds.Bird.constructor | flappy_bird.py:30-36 | a new bird is at (100, 300), at rest, with rotation 0 |
| Birds.Bird.Flap | flappy_bird.py:38-39 | the velocity becomes exactly -10, whatever it was; y and rotation are unchanged |
| Birds.Bird.Update | flappy_bird.py:41-47 | velocity' = velocity + 0.5, then y' = y + velocity', rotation = Tilt(velocity'); x stays 100 and the rotation stays in [-30, 30] |
| Birds.Bird.GetRect | flappy_bird.py:65-67 | a 40×40 rectangle with left edge x - 20 and top edge within one unit of y - 20 |
| Birds.Bird.CheckBoundaries | flappy_bird.py:69-73 | true exactly when y ≤ 20 or y ≥ 580; when false the whole hitbox from get_rect lies within 0..600, when true the hitbox reaches the top or the bottom edge |
| Pipes.Moved | flappy_bird.py:84-85 | definition of Pipe.update on the pipe's view; `Pipes.Pipe.Update` is proved equal to it |
| Pipes.Hits | flappy_bird.py:102-112 | definition of collide on the pipe's view; `HitIffOutsideGap` characterises it |
| Pipes.OffScreen | flappy_bird.py:114-115 | definition of is_off_screen on the pipe's view; `Pipes.Pipe.IsOffScreen` is stated with it |
| Pipes.NewPipe | flappy_bird.py:76-82 | a new pipe at x, not passed, with 100 ≤ top_height ≤ 300, bottom_y = top_height + 200, and both solid segments at least 100 tall |
| Pipes.HitIffOutsideGap | flappy_bird.py:102-112 | for a bird on screen, collide holds exactly when the bird's square overlaps the pipe's columns and does not fit between top_height and bottom_y |
| Pipes.Pipe.constructor | flappy_bird.py:76-82 | the constructed pipe has width 70, gap 200 and the shape NewPipe describes |
| Pipes.Pipe.Update | flappy_bird.py:84-85 | x decreases by exactly 3; nothing else changes |
| Pipes.Pipe.Collide | flappy_bird.py:102-112 | for a bird inside the screen, a collision means the bird's rectangle is within the pipe's columns and not inside the gap |
| Pipes.Pipe.IsOffScreen | flappy_bird.py:114-115 | true exactly when x + 70 < 0; then no pixel of either segment is in a column ≥ 0, and the pipe is still off screen after its next move |
| Stream.Scored | flappy_bird.py:183-185 | definition of the scoring step on one pipe's view |
| Stream.Ticked | flappy_bird.py:176-185 | definition of one loop iteration on one pipe's view (move, then score); `ScoringIsOneShot` characterises it |
| Stream.Survivors | flappy_bird.py:187-189 | the pipes that stay on screen, in order, and never more than the input; `Games.Game.WalkAll` proves the walk leaves exactly these |
| Stream.SurvivorsOrdered | flappy_bird.py:187-189 | removal keeps a left-to-right ordered list ordered |
| Stream.TickAllOrdered | flappy_bird.py:176 | moving every pipe by 3 keeps the left-to-right order, lowers every x by exactly 3 and so lowers a shared bound on x by 3 |
| Stream.ScoringIsOneShot | flappy_bird.py:183-185 | a passed pipe is only moved; an unpassed one gets the flag exactly when its moved right edge is left of the bird; the flag never goes back |
| Stream.TickAll | flappy_bird.py:175-185 | the walk gives every pipe of the list its own move-then-score step, position by position |
| Stream.SurvivorsMembers | flappy_bird.py:187-189 | after the walk, the live pipes are exactly the advanced pipes with x + 70 ≥ 0 |
| Stream.SurvivorsAppend | flappy_bird.py:187-189 | removal commutes with concatenation, so the survivors keep their relative order |
| Stream.SurvivorsKeepOnScreen | flappy_bird.py:188-189 | when no pipe is off screen, the walk removes nothing |
| Stream.RemoveFirst | flappy_bird.py:189 | list.remove drops exactly one element |
| Stream.RemoveFirstAfter | flappy_bird.py:189 | list.remove takes out the first occurrence and keeps everything else in order |
| Stream.CopyIterationIsFilter | flappy_bird.py:175-189 | iterating over a copy while removing off-screen pipes from the live list has the same result as filtering the list, in order |
| Stream.AccountsStep | flappy_bird.py:175-189 | one iteration over the copy: the visited pipe is still live; it is removed exactly when off screen; the score grows by its flag flip; a hit sets game over |
| Stream.FlipsAtMostOnePerPipe | flappy_bird.py:182-185 | a frame awards at most one point per pipe, and none when every pipe was already passed |
| Stream.SpawnedPipeLife | flappy_bird.py:171-189 | a pipe spawned at x = 800 is at 800 - 3n after n updates, is scored from its 257th update on and is off screen from its 291st |
| GameRules.Initial | flappy_bird.py:126-131 | definition of the session reset_game builds; `Games.Game.Reset` and the constructor are proved equal to it |
| GameRules.Step | flappy_bird.py:138-155 | definition of one non-QUIT event on the session; `Games.Game.PrimaryAction` is proved equal to it for a click |
| GameRules.HandleAll | flappy_bird.py:133-157 | definition of handle_events on the session (stops at the first QUIT); `Games.Game.HandleEvents` is proved equal to it |
| GameRules.Prelude | flappy_bird.py:160-172 | definition of the first half of update; `Games.Game.StepAndSpawn` is proved equal to it |
| GameRules.Advance | flappy_bird.py:174-189 | definition of the pipe walk; `Games.Game.AdvancePipes` is proved equal to it |
| GameRules.Tick | flappy_bird.py:159-189 | definition of update; `Games.Game.Update` is proved equal to it |
| GameRules.PreludeKeepsShape | flappy_bird.py:168-172 | after the spawn the pipes are well formed, left to right, and none right of x = 800 |
| GameRules.WalkKeepsShape | flappy_bird.py:174-189 | the walk keeps the pipes well formed and left to right, and leaves every one at x ≤ 797 |
| GameRules.RunningIffNoQuit | flappy_bird.py:133-157 | handle_events returns True exactly when the batch holds no QUIT |
| GameRules.QuitStopsBatch | flappy_bird.py:134-136 | a QUIT returns False at once; the events after it in the batch have no effect |
| GameRules.SpaceActsAsClick | flappy_bird.py:138-155 | a space key press and a mouse click have the same effect anywhere in a batch |
| GameRules.ActionInEachState | flappy_bird.py:126-157 | start → playing with velocity -10; playing → flap only; game over → reset (score 0, no pipes, start, bird at (100, 300) at rest, last_pipe_time = now); other keys and events are ignored |
| GameRules.TickStateMachine | flappy_bird.py:159-189 | outside playing, update changes nothing; game over is never left; start is never entered or left; the score never decreases |
| GameRules.TickSpawnAndScore | flappy_bird.py:159-189 | while playing: the bird steps once; the frame's pipes are the old ones plus NewPipe(800, top) exactly when more than 1500 ms have passed, and then last_pipe_time = now; the new list is the order-preserving filter of those pipes after the move and score; the score grows by exactly the number of flags set, at most one per pipe |
| GameRules.SpawnedPipeMovesAtOnce | flappy_bird.py:168-176 | a pipe spawned in a frame is advanced in it: it ends the list at x = 797, after the surviving older pipes |
| GameRules.BoundaryHitFinishesTick | flappy_bird.py:164-189 | after a boundary hit the state is game over, and the spawn, the advance, the scoring and the removal still take place in that frame |
| GameRules.TickKeepsOnScreen | flappy_bird.py:174-189 | every pipe of the frame (old ones, then the spawned one only if a spawn happened) moves left by exactly 3; a moved pipe stays in the list exactly when x + 70 ≥ 0; every pipe in the list is one of them, moved and scored |
| GameRules.InitialConsistent | flappy_bird.py:126-131 | a freshly reset session is consistent: bird at x = 100 with rotation in range, pipes well formed, in left-to-right order and at x ≤ 797 |
| GameRules.HandleAllConsistent | flappy_bird.py:133-157 | handling events keeps the session consistent |
| GameRules.TickConsistent | flappy_bird.py:159-189 | update keeps the session consistent: every pipe keeps its gap and segment bounds, the list (spawn order) stays strictly left to right, and every pipe is at x ≤ 797 |
| GameRules.RunMonotone | flappy_bird.py:159-189 | over any run of frames without input, the score never decreases, a finished game stays untouched, and a started game never returns to start |
| Games.Game.constructor | flappy_bird.py:124-131 | the new session is the reset session at time now |
| Games.Game.Reset | flappy_bird.py:126-131 | a new bird, no pipes, score 0, state start, last_pipe_time = now |
| Games.Game.PrimaryAction | flappy_bird.py:148-155 | the space/click branch changes the live session as the event rules say for the current state |
| Games.Game.HandleEvents | flappy_bird.py:133-157 | the loop over the batch, with its early return on QUIT, leaves the session and returns the flag that HandleAll gives |
| Games.Game.Update | flappy_bird.py:159-189 | the live session after update is Tick of the session before it, and the objects stay well formed and distinct |
| Games.Game.StepAndSpawn | flappy_bird.py:160-172 | bird step, boundary check and timed spawn: the old pipes stay in place and only a fresh pipe may be added at the end |
| Games.Game.SpawnPipe | flappy_bird.py:169-172 | one fresh pipe at x = 800 with the drawn top is appended; last_pipe_time = now; score and state are unchanged |
| Games.Game.AdvancePipes | flappy_bird.py:174-189 | the loop over the copy leaves the live list as the survivors of the advanced pipes, with score and state as Advance says |
| Games.Game.WalkAll | flappy_bird.py:175-189 | after the walk the live list shows exactly the on-screen advanced pipes and is still repeat-free; the score grew by the flags set; the state becomes game over when some pipe hit the bird and otherwise keeps the value it entered the walk with (which is already game over after a boundary hit) |
| Games.Game.WalkEach | flappy_bird.py:175-189 | the loop keeps the walk's bookkeeping from its first iteration to its last |
| Games.Game.VisitPipe | flappy_bird.py:176-189 | one iteration extends the walk's bookkeeping by one pipe |
| Games.Game.TickPipe | flappy_bird.py:176-189 | the loop body moves and scores the visited pipe, leaves every other pipe unchanged, removes the pipe when off screen, adds its point and ends the game on a hit |

## Left out

- Drawing (`Bird.draw`, `Pipe.draw`, `Game.draw`) and the colour constants: rendering only.
- `Game.__init__`'s display, caption, clock and fonts, `pygame.init`, the `run` loop, `clock.tick` and `sys.exit`: I/O and frame pacing. The constructor models only the `reset_game` call it ends with.
- The pygame event queue: a batch is a `seq<Event>` parameter.
- `random.randint` and `pygame.time.get_ticks`: their results are the parameters `top` and `now`.
- The internals of `pygame.Rect` and `colliderect`: restated as `Geometry.Rect` and `Geometry.CollideRect`. The float-to-int conversion is assumed to truncate, in `Geometry.RectCoord`.
- Floating-point rounding: `y` and `velocity` are exact reals, which match the floats because every value is a multiple of 0.5 of moderate size.
- Bird colour, the `FPS` constant and the `rotation` field's use in drawing: the rotation is modelled, but only as a value.
