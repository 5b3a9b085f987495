/** class Game of flappy_bird.py without its display, font and clock: the
    session state and the three operations that change it in place. Each
    operation is proved to act on the session's view as the rules in GameRules say. */
module Games {
  import opened Constants
  import opened Geometry
  import opened Birds
  import opened Pipes
  import opened Stream
  import opened GameRules

  class Game {
    var bird: Bird
    var pipes: seq<Pipe>
    var score: nat
    var state: GameState
    var lastPipeTime: int

    /** The bird is well formed and the live pipes are distinct, well-formed objects. */
    ghost predicate Valid()
      reads this, bird
    {
      bird.Valid() && Distinct(pipes) &&
      (forall k :: 0 <= k < |pipes| ==> pipes[k].Valid())
    }

    function View(): GameView
      reads this, bird, pipes
    {
      GameView(bird.View(), Views(pipes), score, state, lastPipeTime)
    }

    /** The part of Game.__init__ that concerns the session: it calls reset_game. */
    constructor (now: int)
      ensures Valid() && View() == Initial(now)
    {
      bird := new Bird();
      pipes := [];
      score := 0;
      state := Start;
      lastPipeTime := now;
    }

    /** reset_game: a new bird, no pipes, score 0, back to start. */
    method Reset(now: int)
      modifies this
      ensures Valid() && fresh(bird)
      ensures View() == Initial(now)
    {
      bird := new Bird();
      pipes := [];
      score := 0;
      state := Start;
      lastPipeTime := now;
    }

    /** The primary action (space key or mouse click) in the current state. */
    method PrimaryAction(now: int)
      requires Valid()
      modifies this, bird
      ensures Valid() && (bird == old(bird) || fresh(bird))
      ensures View() == Step(old(View()), MouseButtonDown, now)
    {
      if state == Start {
        state := Playing;
        bird.Flap();
      } else if state == Playing {
        bird.Flap();
      } else {
        Reset(now);
      }
    }

    /** handle_events over one batch of events; `running` is its return value. */
    method HandleEvents(events: seq<Event>, now: int) returns (running: bool)
      requires Valid()
      modifies this, bird
      ensures Valid()
      ensures (View(), running) == HandleAll(old(View()), events, now)
    {
      var i := 0;
      while i < |events|
        invariant 0 <= i <= |events|
        invariant Valid() && (bird == old(bird) || fresh(bird))
        invariant HandleAll(View(), events[i..], now) == HandleAll(old(View()), events, now)
      {
        var event := events[i];
        assert events[i..][0] == event && events[i..][1..] == events[i + 1..];
        if event == Quit {
          return false;
        }
        ghost var before := View();
        if event.KeyDown? && event.isSpace {
          PrimaryAction(now);
        }
        if event == MouseButtonDown {
          PrimaryAction(now);
        }
        assert View() == Step(before, event, now);
        i := i + 1;
      }
      return true;
    }

    /** Game.update; `now` stands for pygame.time.get_ticks() and `top` for the
        random.randint draw of a pipe spawned in this tick. */
    method Update(now: int, top: int)
      requires Valid() && ValidTop(top)
      modifies this, bird, pipes
      ensures Valid() && bird == old(bird)
      ensures View() == Tick(old(View()), now, top)
    {
      if state != Playing {
        return;
      }
      StepAndSpawn(now, top);
      AdvancePipes();
    }

    /** The first half of Game.update: the bird falls, a boundary hit ends the
        game (and the tick goes on), and a pipe is spawned at the right edge
        when the spawn interval has passed. */
    method StepAndSpawn(now: int, top: int)
      requires Valid() && ValidTop(top)
      modifies this, bird
      ensures Valid() && bird == old(bird)
      ensures |pipes| >= |old(pipes)| && pipes[..|old(pipes)|] == old(pipes)
      ensures forall k :: |old(pipes)| <= k < |pipes| ==> fresh(pipes[k])
      ensures View() == Prelude(old(View()), now, top)
    {
      ghost var g0 := View();
      var spawn := now - lastPipeTime > PipeFrequency;
      bird.Update();
      if bird.CheckBoundaries() {
        state := GameOver;
      }
      assert Views(pipes) == g0.pipes;
      if spawn {
        SpawnPipe(now, top);
      }
    }

    /** The spawn branch of Game.update: a new pipe at the right edge, with the
        randint draw `top`, joins the end of the list, and the time is recorded. */
    method SpawnPipe(now: int, top: int)
      requires Valid() && ValidTop(top)
      modifies this
      ensures Valid() && bird == old(bird) && score == old(score) && state == old(state)
      ensures |pipes| == |old(pipes)| + 1 && pipes[..|old(pipes)|] == old(pipes) && fresh(pipes[|old(pipes)|])
      ensures Views(pipes) == old(Views(pipes)) + [NewPipe(ScreenWidth, top)]
      ensures lastPipeTime == now
    {
      var pipe := new Pipe(ScreenWidth, top);
      DistinctAppend(pipes, pipe);
      ViewsSnoc(pipes, pipe);
      pipes := pipes + [pipe];
      lastPipeTime := now;
    }

    /** What the walk over the pipes has done after its first i iterations,
        starting from the views `pre` with score0 and state0: the walked pipes
        show their advanced views `moved`, the others are untouched, the live
        list holds the walked pipes still on screen followed by the unwalked
        ones, and score and state account for the walked pipes. */
    ghost predicate Walked(snapshot: seq<Pipe>, pre: seq<PipeView>, moved: seq<PipeView>, hitbox: Rect,
                           score0: nat, state0: GameState, i: nat)
      reads this, snapshot
    {
      |pre| == |snapshot| == |moved| && i <= |snapshot| &&
      (forall k {:trigger snapshot[k].View()} :: 0 <= k < i ==> snapshot[k].View() == moved[k]) &&
      (forall k {:trigger snapshot[k].View()} :: i <= k < |snapshot| ==> snapshot[k].View() == pre[k]) &&
      Accounts(snapshot, pre, moved, hitbox, score0, state0.GameOver?, pipes, score, state.GameOver?, i) &&
      (state == GameOver || state == state0)
    }

    /** The for loop of Game.update: walk a copy of the pipe list, advance each
        pipe, and remove from the live list a pipe that has left the screen.
        `pre` is the views of the pipes on entry. */
    method AdvancePipes()
      requires Valid()
      modifies this, pipes
      ensures Valid() && bird == old(bird) && lastPipeTime == old(lastPipeTime)
      ensures View() == Advance(old(View()))
    {
      ghost var g := View();
      var snapshot := pipes;
      ghost var moved := TickAll(g.pipes, bird.x);
      ghost var hitbox := BirdRect(g.bird);
      WalkAll(snapshot, g.pipes, moved, hitbox);
      assert bird.View() == g.bird;
      assert Advance(g) == GameView(g.bird, Survivors(moved), g.score + Flips(g.pipes, moved),
        if AnyHits(moved, hitbox) then GameOver else g.state, g.lastPipeTime);
    }

    /** The walk over the copy `snapshot` of the list taken on entry: the live
        list ends as the survivors, and score and state account for every pipe. */
    method WalkAll(snapshot: seq<Pipe>, ghost pre: seq<PipeView>, ghost moved: seq<PipeView>, ghost hitbox: Rect)
      requires Distinct(snapshot)
      requires forall k :: 0 <= k < |snapshot| ==> snapshot[k].Valid()
      requires pipes == snapshot && Views(snapshot) == pre
      requires moved == TickAll(pre, bird.x) && hitbox == BirdRect(bird.View())
      modifies this, snapshot
      ensures bird == old(bird) && lastPipeTime == old(lastPipeTime) && unchanged(bird)
      ensures Views(pipes) == Survivors(moved) && Distinct(pipes)
      ensures forall k :: 0 <= k < |pipes| ==> pipes[k].Valid()
      ensures score == old(score) + Flips(pre, moved)
      ensures state == if AnyHits(moved, hitbox) then GameOver else old(state)
    {
      ViewsAt(snapshot);
      WalkBegins(pre, moved, hitbox);
      WalkEach(snapshot, pre, moved, hitbox);
      WalkEnds(snapshot, pre, moved, hitbox, old(score), old(state));
    }

    /** The loop itself: iteration i visits the pipe at position i of the copy. */
    method WalkEach(snapshot: seq<Pipe>, ghost pre: seq<PipeView>, ghost moved: seq<PipeView>, ghost hitbox: Rect)
      requires Distinct(snapshot)
      requires forall k :: 0 <= k < |snapshot| ==> snapshot[k].Valid()
      requires moved == TickAll(pre, bird.x) && hitbox == BirdRect(bird.View())
      requires Walked(snapshot, pre, moved, hitbox, score, state, 0)
      modifies this, snapshot
      ensures bird == old(bird) && lastPipeTime == old(lastPipeTime) && unchanged(bird)
      ensures Walked(snapshot, pre, moved, hitbox, old(score), old(state), |snapshot|)
    {
      var i := 0;
      while i < |snapshot|
        invariant bird == old(bird) && lastPipeTime == old(lastPipeTime) && unchanged(bird)
        invariant Walked(snapshot, pre, moved, hitbox, old(score), old(state), i)
      {
        VisitPipe(snapshot, pre, moved, hitbox, old(score), old(state), i);
        i := i + 1;
      }
    }

    /** Before the first iteration nothing is walked and the live list is the whole list. */
    lemma WalkBegins(pre: seq<PipeView>, moved: seq<PipeView>, hitbox: Rect)
      requires |pre| == |pipes| && forall k :: 0 <= k < |pipes| ==> pipes[k].View() == pre[k]
      requires |moved| == |pre|
      ensures Walked(pipes, pre, moved, hitbox, score, state, 0)
    {
      SuffixWhole(pipes);
      assert pre[..0] == [] && moved[..0] == [];
    }

    /** After the last iteration the live list holds exactly the survivors, and
        score and state account for every pipe. */
    lemma WalkEnds(snapshot: seq<Pipe>, pre: seq<PipeView>, moved: seq<PipeView>, hitbox: Rect,
                   score0: nat, state0: GameState)
      requires Distinct(snapshot) && forall k :: 0 <= k < |snapshot| ==> snapshot[k].Valid()
      requires Walked(snapshot, pre, moved, hitbox, score0, state0, |snapshot|)
      ensures Views(pipes) == Survivors(moved) && Distinct(pipes)
      ensures forall k :: 0 <= k < |pipes| ==> pipes[k].Valid()
      ensures score == score0 + Flips(pre, moved)
      ensures state == if AnyHits(moved, hitbox) then GameOver else state0
    {
      var n := |snapshot|;
      assert moved[..n] == moved && pre[..n] == pre;
      assert pipes == Kept(snapshot, moved, n);
      ViewsOfKept(snapshot, moved, n);
      KeptDistinct(snapshot, moved, n);
      KeptValid(snapshot, moved, n);
    }

    /** One iteration of that loop: the pipe at position i is advanced and, when
        it has left the screen, removed from the live list. */
    method VisitPipe(snapshot: seq<Pipe>, ghost pre: seq<PipeView>, ghost moved: seq<PipeView>,
                     ghost hitbox: Rect, ghost score0: nat, ghost state0: GameState, i: nat)
      requires Distinct(snapshot) && i < |snapshot|
      requires forall k :: 0 <= k < |snapshot| ==> snapshot[k].Valid()
      requires moved == TickAll(pre, bird.x) && hitbox == BirdRect(bird.View())
      requires Walked(snapshot, pre, moved, hitbox, score0, state0, i)
      modifies this, snapshot[i]
      ensures bird == old(bird) && lastPipeTime == old(lastPipeTime)
      ensures Walked(snapshot, pre, moved, hitbox, score0, state0, i + 1)
    {
      var pipe := snapshot[i];
      ghost var over0, live, scored, over := state0.GameOver?, pipes, score, state.GameOver?;
      AccountsStep(snapshot, pre, moved, hitbox, score0, over0, live, scored, over, i);
      TickPipe(snapshot, pre, moved, i);
    }

    /** The body of that loop for the pipe at position i: the pipe moves, a
        collision with the bird ends the game, a pipe whose right edge is now
        left of the bird scores once, and a pipe that has left the screen is
        removed from the live list. No other pipe changes. */
    method TickPipe(snapshot: seq<Pipe>, ghost pre: seq<PipeView>, ghost moved: seq<PipeView>, i: nat)
      requires Distinct(snapshot) && |pre| == |snapshot| == |moved| && i < |snapshot|
      requires snapshot[i].Valid() && snapshot[i] in pipes && moved[i] == Ticked(pre[i], bird.x)
      requires forall k {:trigger snapshot[k].View()} :: 0 <= k < i ==> snapshot[k].View() == moved[k]
      requires forall k {:trigger snapshot[k].View()} :: i <= k < |snapshot| ==> snapshot[k].View() == pre[k]
      modifies this, snapshot[i]
      ensures bird == old(bird) && lastPipeTime == old(lastPipeTime)
      ensures pipes == if OffScreen(moved[i]) then RemoveFirst(old(pipes), snapshot[i]) else old(pipes)
      ensures forall k {:trigger snapshot[k].View()} :: 0 <= k < i + 1 ==> snapshot[k].View() == moved[k]
      ensures forall k {:trigger snapshot[k].View()} :: i + 1 <= k < |snapshot| ==> snapshot[k].View() == pre[k]
      ensures score == old(score) + (if !pre[i].passed && moved[i].passed then 1 else 0)
      ensures state == if Hits(moved[i], BirdRect(bird.View())) then GameOver else old(state)
    {
      var pipe := snapshot[i];
      DistinctOthers(snapshot, i);
      pipe.Update();
      if pipe.Collide(bird) {
        state := GameOver;
      }
      if !pipe.passed && pipe.x + pipe.width < bird.x {
        pipe.passed := true;
        score := score + 1;
      }
      if pipe.IsOffScreen() {
        pipes := RemoveFirst(pipes, pipe);
      }
      forall k | 0 <= k < |snapshot| && k != i
        ensures snapshot[k].View() == old(snapshot[k].View())
      {
        assert snapshot[k] != pipe;
      }
    }
  }
}
