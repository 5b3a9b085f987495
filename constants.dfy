/** The game's fixed configuration: the module-level constants of flappy_bird.py
    and the sizes that the Bird and Pipe constructors write into every object. */
module Constants {
  const ScreenWidth: int := 800
  const ScreenHeight: int := 600

  const Gravity: real := 0.5          // added to the bird's velocity every tick
  const FlapStrength: real := -10.0   // velocity after a flap (upward)
  const PipeSpeed: int := 3           // leftward pipe movement per tick
  const PipeGap: int := 200           // height of the opening in a pipe
  const PipeFrequency: int := 1500    // milliseconds between pipe spawns

  const BirdX: int := 100
  const BirdStartY: real := (ScreenHeight / 2) as real
  const BirdRadius: int := 20

  const PipeWidth: int := 70
  /** Least height of a pipe's top and bottom segment: the bounds handed to randint. */
  const MinSegment: int := 100
  const MaxTop: int := ScreenHeight - PipeGap - MinSegment
}
