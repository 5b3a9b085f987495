/** One obstacle (class Pipe of flappy_bird.py): a column with a gap, its
    leftward movement, its collision test against the bird and its off-screen test. */
module Pipes {
  import opened Constants
  import opened Geometry
  import opened Birds

  /** A pipe's observable state; width and gap are the same for every pipe. */
  datatype PipeView = PipeView(x: int, topHeight: int, bottomY: int, passed: bool)

  /** The shape every constructed pipe keeps for its whole life. */
  predicate WellFormed(p: PipeView) {
    MinSegment <= p.topHeight <= MaxTop && p.bottomY == p.topHeight + PipeGap
  }

  /** Pipe(x) with `top` the value random.randint(100, 300) returned. Both solid
      segments are at least 100 tall and the opening between them is exactly 200. */
  function NewPipe(x: int, top: int): (p: PipeView)
    requires MinSegment <= top <= MaxTop
    ensures p.x == x && !p.passed && WellFormed(p)
    ensures p.topHeight >= MinSegment && ScreenHeight - p.bottomY >= MinSegment
    ensures p.bottomY - p.topHeight == PipeGap
  {
    PipeView(x, top, top + PipeGap, false)
  }

  /** The effect of Pipe.update. */
  function Moved(p: PipeView): PipeView {
    p.(x := p.x - PipeSpeed)
  }

  function TopRect(p: PipeView): Rect {
    Rect(p.x, 0, PipeWidth, p.topHeight)
  }

  function BottomRect(p: PipeView): Rect {
    Rect(p.x, p.bottomY, PipeWidth, ScreenHeight - p.bottomY)
  }

  /** Pipe.collide: the bird's square overlaps the top or the bottom segment. */
  predicate Hits(p: PipeView, bird: Rect) {
    CollideRect(bird, TopRect(p)) || CollideRect(bird, BottomRect(p))
  }

  /** Pipe.is_off_screen: the pipe's right edge has left the screen. */
  predicate OffScreen(p: PipeView) {
    p.x + PipeWidth < 0
  }

  /** A bird whose hitbox is on screen collides with a pipe exactly when its square
      is within the pipe's columns and does not fit inside the gap. */
  lemma HitIffOutsideGap(p: PipeView, b: BirdView)
    requires WellFormed(p)
    requires !HitsBoundary(b)
    ensures Hits(p, BirdRect(b)) <==>
      var r := BirdRect(b);
      r.left < p.x + PipeWidth && p.x < r.Right() &&
      !(p.topHeight <= r.top && r.Bottom() <= p.bottomY)
  {
    BoundaryAndHitbox(b);
  }

  class Pipe {
    var x: int
    const width: int
    const gap: int
    const topHeight: int
    const bottomY: int
    var passed: bool

    ghost predicate Valid() {
      width == PipeWidth && gap == PipeGap &&
      MinSegment <= topHeight <= MaxTop && bottomY == topHeight + gap
    }

    function View(): PipeView
      reads this
    {
      PipeView(x, topHeight, bottomY, passed)
    }

    /** `top` stands for the call random.randint(100, SCREEN_HEIGHT - gap - 100). */
    constructor (x: int, top: int)
      requires MinSegment <= top <= MaxTop
      ensures Valid() && View() == NewPipe(x, top)
    {
      this.x := x;
      width := PipeWidth;
      gap := PipeGap;
      topHeight := top;
      bottomY := top + PipeGap;
      passed := false;
    }

    method Update()
      modifies this
      ensures x == old(x) - PipeSpeed && passed == old(passed)
      ensures View() == Moved(old(View()))
    {
      x := x - PipeSpeed;
    }

    /** For a bird inside the screen: a collision means the bird's square is
        within the pipe's columns and does not fit between the segments. */
    predicate Collide(bird: Bird)
      reads this, bird
      requires Valid()
      ensures bird.Valid() && !bird.CheckBoundaries() ==>
        var r := bird.GetRect();
        (Collide(bird) <==>
          r.left < x + width && x < r.Right() && !(topHeight <= r.top && r.Bottom() <= bottomY))
    {
      if HitsBoundary(bird.View()) then Hits(View(), bird.GetRect())
      else
        HitIffOutsideGap(View(), bird.View());
        Hits(View(), bird.GetRect())
    }

    /** The pipe is gone once its right edge is left of the screen: then no
        pixel of either segment lies in a column the screen shows, and the
        pipe stays off screen after it moves again. */
    predicate IsOffScreen()
      reads this
      requires Valid()
      ensures IsOffScreen() <==> x < -width
      ensures IsOffScreen() ==> forall px, py :: TopRect(View()).Contains(px, py) ==> px < 0
      ensures IsOffScreen() ==> forall px, py :: BottomRect(View()).Contains(px, py) ==> px < 0
      ensures IsOffScreen() ==> OffScreen(Moved(View()))
    {
      OffScreen(View())
    }
  }

  /** The views of a list of pipes, in order. */
  function Views(ps: seq<Pipe>): (r: seq<PipeView>)
    reads ps
    ensures |r| == |ps|
  {
    if ps == [] then [] else Views(ps[..|ps| - 1]) + [ps[|ps| - 1].View()]
  }

  /** The k-th view is the view of the k-th pipe. */
  lemma {:induction false} ViewsAt(ps: seq<Pipe>)
    ensures forall k :: 0 <= k < |ps| ==> Views(ps)[k] == ps[k].View()
  {
    if ps != [] {
      ViewsAt(ps[..|ps| - 1]);
    }
  }

  lemma ViewsSnoc(ps: seq<Pipe>, p: Pipe)
    ensures Views(ps + [p]) == Views(ps) + [p.View()]
  {
    assert (ps + [p])[..|ps|] == ps;
  }
}
