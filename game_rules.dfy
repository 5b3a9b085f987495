/** The game session's rules on values (class Game of flappy_bird.py): the
    start / playing / game-over state machine driven by input events, the reset,
    and one simulation tick with spawning, collision and scoring. */
module GameRules {
  import opened Constants
  import opened Geometry
  import opened Birds
  import opened Pipes
  import opened Stream

  /** The three values of Game.game_state: "start", "playing", "game_over". */
  datatype GameState = Start | Playing | GameOver

  /** One entry of a pygame event batch; every event type the game ignores
      (key-up, mouse motion, ...) is OtherEvent. */
  datatype Event = Quit | KeyDown(isSpace: bool) | MouseButtonDown | OtherEvent

  datatype GameView = GameView(
    bird: BirdView,
    pipes: seq<PipeView>,
    score: nat,
    state: GameState,
    lastPipeTime: int)

  /** The session that reset_game builds, `now` being pygame.time.get_ticks(). */
  function Initial(now: int): GameView {
    GameView(StartBird, [], 0, Start, now)
  }

  /** The effect of one event other than Quit. The key and the mouse branch are
      written out separately, as the game loop has them. */
  function Step(g: GameView, e: Event, now: int): GameView {
    match e
    case KeyDown(isSpace) =>
      if !isSpace then g
      else if g.state == Start then g.(state := Playing, bird := Flapped(g.bird))
      else if g.state == Playing then g.(bird := Flapped(g.bird))
      else Initial(now)
    case MouseButtonDown =>
      if g.state == Start then g.(state := Playing, bird := Flapped(g.bird))
      else if g.state == Playing then g.(bird := Flapped(g.bird))
      else Initial(now)
    case _ => g
  }

  /** Game.handle_events on one batch: the new session and whether the game keeps
      running. A Quit stops at once; the events after it are not looked at. */
  function HandleAll(g: GameView, events: seq<Event>, now: int): (GameView, bool)
    decreases |events|
  {
    if events == [] then (g, true)
    else if events[0] == Quit then (g, false)
    else HandleAll(Step(g, events[0], now), events[1..], now)
  }

  predicate ValidTop(top: int) {
    MinSegment <= top <= MaxTop
  }

  /** What holds of every session the game can reach: the bird stays at x = 100
      with its tilt in range, every pipe keeps the shape it was built with, and
      the list, in spawn order, stands left to right with every pipe moved at
      least once since it was spawned at the right edge. */
  predicate Consistent(g: GameView) {
    g.bird.x == BirdX && -30.0 <= g.bird.rotation <= 30.0 &&
    (forall k :: 0 <= k < |g.pipes| ==> WellFormed(g.pipes[k])) &&
    Ordered(g.pipes) &&
    (forall k :: 0 <= k < |g.pipes| ==> g.pipes[k].x <= ScreenWidth - PipeSpeed)
  }

  /** The first half of Game.update: the bird falls one frame, a boundary hit
      ends the game, and a new pipe is spawned at the right edge when more than
      PipeFrequency milliseconds have passed since the last one. */
  function Prelude(g: GameView, now: int, top: int): GameView
    requires ValidTop(top)
  {
    var bird := Stepped(g.bird);
    var spawn := now - g.lastPipeTime > PipeFrequency;
    GameView(
      bird,
      if spawn then g.pipes + [NewPipe(ScreenWidth, top)] else g.pipes,
      g.score,
      if HitsBoundary(bird) then GameOver else g.state,
      if spawn then now else g.lastPipeTime)
  }

  /** The second half of Game.update, the walk over the pipes: every pipe moves
      and may score, a collision ends the game, and off-screen pipes are dropped. */
  function Advance(g: GameView): GameView {
    var moved := TickAll(g.pipes, g.bird.x);
    g.(pipes := Survivors(moved),
       score := g.score + Flips(g.pipes, moved),
       state := if AnyHits(moved, BirdRect(g.bird)) then GameOver else g.state)
  }

  /** Game.update. `now` is pygame.time.get_ticks() and `top` the value that
      random.randint would give a pipe spawned in this tick. */
  function Tick(g: GameView, now: int, top: int): GameView
    requires ValidTop(top)
  {
    if g.state != Playing then g else Advance(Prelude(g, now, top))
  }

  // ---------------------------------------------------------------- events

  /** handle_events reports `running` exactly when the batch holds no Quit. */
  lemma {:induction false} RunningIffNoQuit(g: GameView, events: seq<Event>, now: int)
    ensures HandleAll(g, events, now).1 <==> Quit !in events
    decreases |events|
  {
    if events != [] && events[0] != Quit {
      RunningIffNoQuit(Step(g, events[0], now), events[1..], now);
      assert events == [events[0]] + events[1..];
    }
  }

  /** The events after a Quit are left unprocessed. */
  lemma {:induction false} QuitStopsBatch(g: GameView, before: seq<Event>, after: seq<Event>, now: int)
    requires Quit !in before
    ensures HandleAll(g, before + [Quit] + after, now) == (HandleAll(g, before, now).0, false)
    decreases |before|
  {
    var events := before + [Quit] + after;
    if before == [] {
      assert events[0] == Quit;
    } else {
      assert events[0] == before[0] && events[1..] == before[1..] + [Quit] + after;
      QuitStopsBatch(Step(g, before[0], now), before[1..], after, now);
    }
  }

  /** A space key press and a mouse click have the same effect, wherever in the
      batch they occur. */
  lemma {:induction false} SpaceActsAsClick(g: GameView, before: seq<Event>, after: seq<Event>, now: int)
    ensures HandleAll(g, before + [KeyDown(true)] + after, now) ==
            HandleAll(g, before + [MouseButtonDown] + after, now)
    decreases |before|
  {
    var key := before + [KeyDown(true)] + after;
    var click := before + [MouseButtonDown] + after;
    if before == [] {
      assert key[0] == KeyDown(true) && key[1..] == after;
      assert click[0] == MouseButtonDown && click[1..] == after;
    } else {
      assert key[0] == before[0] && key[1..] == before[1..] + [KeyDown(true)] + after;
      assert click[0] == before[0] && click[1..] == before[1..] + [MouseButtonDown] + after;
      SpaceActsAsClick(Step(g, before[0], now), before[1..], after, now);
    }
  }

  /** The primary action in each state: start plays with one flap, playing only
      flaps, game over resets to a fresh session; other keys are ignored. */
  lemma ActionInEachState(g: GameView, now: int)
    ensures g.state == Start ==>
      HandleAll(g, [MouseButtonDown], now) ==
        (g.(state := Playing, bird := g.bird.(velocity := FlapStrength)), true)
    ensures g.state == Playing ==>
      HandleAll(g, [MouseButtonDown], now) == (g.(bird := g.bird.(velocity := FlapStrength)), true)
    ensures g.state == GameOver ==>
      var r := HandleAll(g, [MouseButtonDown], now).0;
      r.score == 0 && r.pipes == [] && r.state == Start && r.lastPipeTime == now &&
      r.bird.x == 100 && r.bird.y == 300.0 && r.bird.velocity == 0.0
    ensures HandleAll(g, [KeyDown(false)], now) == (g, true)
    ensures HandleAll(g, [OtherEvent], now) == (g, true)
  {
    assert [MouseButtonDown][1..] == [];
    assert [KeyDown(false)][1..] == [];
    assert [OtherEvent][1..] == [];
  }

  // ---------------------------------------------------------------- ticks

  /** Nothing moves unless the game is playing; a tick never leaves game over,
      never goes back to start, and never lowers the score. */
  lemma TickStateMachine(g: GameView, now: int, top: int)
    requires ValidTop(top)
    ensures g.state != Playing ==> Tick(g, now, top) == g
    ensures g.state == GameOver ==> Tick(g, now, top).state == GameOver
    ensures Tick(g, now, top).state == Start <==> g.state == Start
    ensures Tick(g, now, top).score >= g.score
  {
  }

  /** One tick while playing: the bird steps, at most one pipe is spawned (exactly
      when more than 1500 ms passed since the last one) and the spawn time is
      recorded; the score grows by exactly the number of scoring flags the tick
      set, which is at most one per pipe. */
  lemma TickSpawnAndScore(g: GameView, now: int, top: int)
    requires ValidTop(top)
    requires g.state == Playing
    ensures var t := Tick(g, now, top);
      var spawn := now - g.lastPipeTime > PipeFrequency;
      var pre := if spawn then g.pipes + [NewPipe(ScreenWidth, top)] else g.pipes;
      var moved := TickAll(pre, g.bird.x);
      t.bird == Stepped(g.bird) &&
      t.lastPipeTime == (if spawn then now else g.lastPipeTime) &&
      |t.pipes| <= |g.pipes| + (if spawn then 1 else 0) &&
      t.pipes == Survivors(moved) &&
      t.score == g.score + Flips(pre, moved) &&
      t.score <= g.score + |g.pipes| + (if spawn then 1 else 0)
  {
    var bird := Stepped(g.bird);
    var spawn := now - g.lastPipeTime > PipeFrequency;
    var pre := if spawn then g.pipes + [NewPipe(ScreenWidth, top)] else g.pipes;
    FlipsAtMostOnePerPipe(pre, TickAll(pre, bird.x));
  }

  /** A pipe spawned in a tick is advanced in that same tick: it ends the list at
      x = 797, behind every surviving older pipe. */
  lemma SpawnedPipeMovesAtOnce(g: GameView, now: int, top: int)
    requires ValidTop(top) && Consistent(g)
    requires g.state == Playing && now - g.lastPipeTime > PipeFrequency
    ensures var t := Tick(g, now, top);
      |t.pipes| > 0 &&
      t.pipes[|t.pipes| - 1] == PipeView(ScreenWidth - PipeSpeed, top, top + PipeGap, false) &&
      t.pipes[..|t.pipes| - 1] == Survivors(TickAll(g.pipes, BirdX))
  {
    var pre := g.pipes + [NewPipe(ScreenWidth, top)];
    var moved := TickAll(pre, BirdX);
    var older := TickAll(g.pipes, BirdX);
    var last := PipeView(ScreenWidth - PipeSpeed, top, top + PipeGap, false);
    assert moved[|pre| - 1] == last;
    assert moved == older + [last];
    SurvivorsAppend(older, [last]);
    assert [last][..0] == [];
    assert Survivors([last]) == [last];
    assert Tick(g, now, top).pipes == Survivors(older) + [last];
  }

  /** A boundary hit ends the game but not the tick: the spawn, the advance, the
      scoring and the removal of off-screen pipes still happen in it. */
  lemma BoundaryHitFinishesTick(g: GameView, now: int, top: int)
    requires ValidTop(top)
    requires g.state == Playing && HitsBoundary(Stepped(g.bird))
    ensures var t := Tick(g, now, top);
      var spawn := now - g.lastPipeTime > PipeFrequency;
      var pre := if spawn then g.pipes + [NewPipe(ScreenWidth, top)] else g.pipes;
      var moved := TickAll(pre, g.bird.x);
      t.state == GameOver &&
      t.pipes == Survivors(moved) &&
      t.score == g.score + Flips(pre, moved) &&
      t.lastPipeTime == (if spawn then now else g.lastPipeTime)
  {
  }

  /** The survivors of a tick: every pipe of the frame (the old ones, then the
      spawned one if any) is moved by 3 and scored, and such a pipe is kept
      exactly when it is still on screen; nothing else is in the list. */
  lemma TickKeepsOnScreen(g: GameView, now: int, top: int)
    requires ValidTop(top)
    requires g.state == Playing
    ensures var t := Tick(g, now, top);
      var spawn := now - g.lastPipeTime > PipeFrequency;
      var pre := if spawn then g.pipes + [NewPipe(ScreenWidth, top)] else g.pipes;
      var moved := TickAll(pre, g.bird.x);
      (forall k :: 0 <= k < |moved| ==> moved[k].x == pre[k].x - PipeSpeed) &&
      (forall k :: 0 <= k < |moved| ==> (moved[k] in t.pipes <==> !OffScreen(moved[k]))) &&
      (forall p :: p in t.pipes ==> exists k :: 0 <= k < |pre| && p == Ticked(pre[k], g.bird.x))
  {
    var bird := Stepped(g.bird);
    var spawn := now - g.lastPipeTime > PipeFrequency;
    var pre := if spawn then g.pipes + [NewPipe(ScreenWidth, top)] else g.pipes;
    var moved := TickAll(pre, bird.x);
    SurvivorsMembers(moved);
    assert Tick(g, now, top).pipes == Survivors(moved);
    forall p | p in Tick(g, now, top).pipes
      ensures exists k :: 0 <= k < |pre| && p == Ticked(pre[k], g.bird.x)
    {
      var k :| 0 <= k < |moved| && moved[k] == p;
      assert p == Ticked(pre[k], g.bird.x);
    }
  }

  lemma InitialConsistent(now: int)
    ensures Consistent(Initial(now))
  {
  }

  /** Events and ticks keep a session consistent. */
  lemma {:induction false} HandleAllConsistent(g: GameView, events: seq<Event>, now: int)
    requires Consistent(g)
    ensures Consistent(HandleAll(g, events, now).0)
    decreases |events|
  {
    if events != [] && events[0] != Quit {
      HandleAllConsistent(Step(g, events[0], now), events[1..], now);
    }
  }

  /** The pipes a playing frame walks: well formed, left to right, and none
      right of the edge where new pipes appear. */
  lemma PreludeKeepsShape(g: GameView, now: int, top: int)
    requires ValidTop(top) && Consistent(g)
    ensures var ps := Prelude(g, now, top).pipes;
      (forall k :: 0 <= k < |ps| ==> WellFormed(ps[k])) &&
      Ordered(ps) && forall k :: 0 <= k < |ps| ==> ps[k].x <= ScreenWidth
  {
    var ps := Prelude(g, now, top).pipes;
    if ps != g.pipes {
      assert ps == g.pipes + [NewPipe(ScreenWidth, top)];
      forall i, j | 0 <= i < j < |ps| ensures ps[i].x < ps[j].x {
        if j == |g.pipes| {
          assert ps[i] == g.pipes[i];
        }
      }
    }
  }

  /** The walk keeps that shape: the survivors of a moved list stay well
      formed and left to right, every one at least 3 left of the spawn edge. */
  lemma WalkKeepsShape(ps: seq<PipeView>, birdX: int)
    requires forall k :: 0 <= k < |ps| ==> WellFormed(ps[k])
    requires Ordered(ps) && forall k :: 0 <= k < |ps| ==> ps[k].x <= ScreenWidth
    ensures var r := Survivors(TickAll(ps, birdX));
      (forall k :: 0 <= k < |r| ==> WellFormed(r[k])) &&
      Ordered(r) && forall k :: 0 <= k < |r| ==> r[k].x <= ScreenWidth - PipeSpeed
  {
    var moved := TickAll(ps, birdX);
    TickAllOrdered(ps, birdX, ScreenWidth);
    assert forall k :: 0 <= k < |moved| ==> WellFormed(moved[k]);
    SurvivorsMembers(moved);
    SurvivorsOrdered(moved);
    var r := Survivors(moved);
    forall k | 0 <= k < |r|
      ensures WellFormed(r[k]) && r[k].x <= ScreenWidth - PipeSpeed
    {
      assert r[k] in moved;
    }
  }

  lemma TickConsistent(g: GameView, now: int, top: int)
    requires ValidTop(top) && Consistent(g)
    ensures Consistent(Tick(g, now, top))
  {
    if g.state == Playing {
      var mid := Prelude(g, now, top);
      PreludeKeepsShape(g, now, top);
      WalkKeepsShape(mid.pipes, BirdX);
      assert Advance(mid).pipes == Survivors(TickAll(mid.pipes, BirdX));
    }
  }

  /** A run of ticks with no input in between. */
  function Run(g: GameView, frames: seq<(int, int)>): GameView
    requires forall k :: 0 <= k < |frames| ==> ValidTop(frames[k].1)
    decreases |frames|
  {
    if frames == [] then g else Run(Tick(g, frames[0].0, frames[0].1), frames[1..])
  }

  /** Within a session the score never decreases, and once over the game stays
      over, untouched, until an input resets it. */
  lemma {:induction false} RunMonotone(g: GameView, frames: seq<(int, int)>)
    requires forall k :: 0 <= k < |frames| ==> ValidTop(frames[k].1)
    ensures Run(g, frames).score >= g.score
    ensures g.state == GameOver ==> Run(g, frames) == g
    ensures g.state != Start ==> Run(g, frames).state != Start
    decreases |frames|
  {
    if frames != [] {
      TickStateMachine(g, frames[0].0, frames[0].1);
      RunMonotone(Tick(g, frames[0].0, frames[0].1), frames[1..]);
    }
  }
}
