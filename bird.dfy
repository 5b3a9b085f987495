/** The player's avatar (class Bird of flappy_bird.py): vertical kinematics under
    gravity, the flap impulse, the square hitbox and the screen-boundary test. */
module Birds {
  import opened Constants
  import opened Geometry

  /** The bird's observable state. `x` never changes after construction. */
  datatype BirdView = BirdView(x: int, y: real, velocity: real, rotation: real)

  /** A freshly constructed bird: at (100, 300), at rest, level. */
  const StartBird := BirdView(BirdX, BirdStartY, 0.0, 0.0)

  /** The cosmetic tilt: -3 * velocity clamped to [-30, 30]. */
  function Tilt(velocity: real): (r: real)
    ensures -30.0 <= r <= 30.0
    ensures -30.0 <= -3.0 * velocity <= 30.0 ==> r == -3.0 * velocity
    ensures -3.0 * velocity > 30.0 ==> r == 30.0
    ensures -3.0 * velocity < -30.0 ==> r == -30.0
  {
    var raw := -velocity * 3.0;
    var upper := if raw < 30.0 then raw else 30.0;
    if upper > -30.0 then upper else -30.0
  }

  /** A steeper climb never gives a smaller tilt. */
  lemma TiltMonotone(v1: real, v2: real)
    requires v1 <= v2
    ensures Tilt(v2) <= Tilt(v1)
  {
  }

  /** The effect of Bird.flap on the bird's state. */
  function Flapped(b: BirdView): BirdView {
    b.(velocity := FlapStrength)
  }

  /** The effect of Bird.update: gravity first, then the move by the new velocity. */
  function Stepped(b: BirdView): BirdView {
    var v := b.velocity + Gravity;
    b.(y := b.y + v, velocity := v, rotation := Tilt(v))
  }

  /** n updates in a row with no flap in between. */
  function Fall(b: BirdView, n: nat): BirdView
    decreases n
  {
    if n == 0 then b else Stepped(Fall(b, n - 1))
  }

  /** Falling n ticks from velocity v gives velocity v + n/2 and the position
      y + n*v + (1 + 2 + ... + n)/2; x never moves. */
  lemma {:induction false} FallClosedForm(b: BirdView, n: nat)
    ensures Fall(b, n).x == b.x
    ensures Fall(b, n).velocity == b.velocity + (n as real) * Gravity
    ensures Fall(b, n).y == b.y + (n as real) * b.velocity + Gravity * ((n * (n + 1)) as real) / 2.0
  {
    if n > 0 {
      FallClosedForm(b, n - 1);
      var m := (n - 1) as real;
      assert (n * (n + 1)) as real == m * m + 3.0 * m + 2.0;
      assert ((n - 1) * n) as real == m * m + m;
    }
  }

  /** Bird.check_boundaries: the bird's vertical extent touches or leaves the screen. */
  predicate HitsBoundary(b: BirdView) {
    b.y - BirdRadius as real <= 0.0 || b.y + BirdRadius as real >= ScreenHeight as real
  }

  /** Bird.get_rect: the 2r-by-2r square around the bird, its corner converted to
      integers by pygame.Rect. It is centred on (x, y) up to that conversion. */
  function BirdRect(b: BirdView): (r: Rect)
    ensures r.width == 2 * BirdRadius && r.height == 2 * BirdRadius
    ensures r.left + BirdRadius == b.x
    ensures -1.0 < (r.top + BirdRadius) as real - b.y < 1.0
  {
    Rect(RectCoord((b.x - BirdRadius) as real), RectCoord(b.y - BirdRadius as real),
         2 * BirdRadius, 2 * BirdRadius)
  }

  /** A bird that passes the boundary test has its whole hitbox on screen; one that
      fails it has a hitbox that reaches the top or the bottom edge. */
  lemma BoundaryAndHitbox(b: BirdView)
    ensures !HitsBoundary(b) ==> 0 <= BirdRect(b).top && BirdRect(b).Bottom() <= ScreenHeight
    ensures HitsBoundary(b) ==> BirdRect(b).top <= 0 || BirdRect(b).Bottom() >= ScreenHeight
  {
    var t := b.y - BirdRadius as real;
    assert BirdRect(b).top == RectCoord(t);
  }

  class Bird {
    const x: int
    const radius: int
    var y: real
    var velocity: real
    var rotation: real

    ghost predicate Valid()
      reads this
    {
      x == BirdX && radius == BirdRadius && -30.0 <= rotation <= 30.0
    }

    function View(): BirdView
      reads this
    {
      BirdView(x, y, velocity, rotation)
    }

    constructor ()
      ensures Valid() && View() == StartBird
    {
      x := BirdX;
      y := BirdStartY;
      velocity := 0.0;
      radius := BirdRadius;
      rotation := 0.0;
    }

    /** Overwrite the velocity with the flap impulse, whatever it was. */
    method Flap()
      modifies this
      ensures velocity == FlapStrength
      ensures y == old(y) && rotation == old(rotation)
      ensures View() == Flapped(old(View()))
    {
      velocity := FlapStrength;
    }

    /** One tick: add gravity to the velocity, then move by the new velocity, then tilt. */
    method Update()
      requires Valid()
      modifies this
      ensures Valid()
      ensures velocity == old(velocity) + Gravity
      ensures y == old(y) + velocity
      ensures rotation == Tilt(velocity)
      ensures View() == Stepped(old(View()))
    {
      velocity := velocity + Gravity;
      y := y + velocity;
      rotation := Tilt(velocity);
    }

    /** The 40-by-40 square around the bird, its top edge within a pixel of y - 20. */
    function GetRect(): (r: Rect)
      reads this
      ensures r.left == x - BirdRadius && r.width == 2 * BirdRadius && r.height == 2 * BirdRadius
      ensures -1.0 < r.top as real - (y - BirdRadius as real) < 1.0
    {
      BirdRect(View())
    }

    /** The bird is out exactly when its centre is not strictly between 20 and 580.
        A bird that passes the test has its whole hitbox on screen; one that
        fails it has a hitbox reaching the top or the bottom edge. */
    predicate CheckBoundaries()
      reads this
      requires Valid()
      ensures CheckBoundaries() <==> !(20.0 < y < 580.0)
      ensures !CheckBoundaries() ==> 0 <= GetRect().top && GetRect().Bottom() <= ScreenHeight
      ensures CheckBoundaries() ==> GetRect().top <= 0 || GetRect().Bottom() >= ScreenHeight
    {
      BoundaryAndHitbox(View());
      HitsBoundary(View())
    }
  }
}
