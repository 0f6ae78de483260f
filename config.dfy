/** The game's tunable constants. Their values live in a configuration file
    that is not part of this model, so each one is a symbolic constant: the
    model assumes nothing about it beyond the range its type states. */
module Config {

  type Positive = n: int | n >= 1 witness 1
  /** A drag coefficient: velocity is scaled by it, so it lies strictly between 0 and 1. */
  type Fraction = r: real | 0.0 < r < 1.0 witness 0.5
  /** A (minimum, maximum) pair of asteroid radii, in the order `random.randint` needs. */
  type SizeRange = p: (int, int) | p.0 <= p.1 witness (1, 1)

  const SCREEN_WIDTH: Positive
  const SCREEN_HEIGHT: Positive

  const SHIP_SIZE: real
  const SHIP_ROTATION_SPEED: real
  const SHIP_ACCELERATION: real
  const SHIP_DRAG: Fraction

  const MISSILE_SPEED: real
  const MISSILE_LIFETIME: int
  const MISSILE_SIZE: real

  const ASTEROID_SIZES: SizeRange
  const ASTEROID_MIN_SIZE: int := ASTEROID_SIZES.0
  const ASTEROID_MAX_SIZE: int := ASTEROID_SIZES.1
  const ASTEROID_MIN_SPEED: real
  const ASTEROID_MAX_SPEED: real
  const ASTEROID_MIN_ROTATION: real
  const ASTEROID_MAX_ROTATION: real
  const ASTEROID_COUNT: nat
  const ASTEROID_SPAWN_RATE: Positive

  const EXPLOSION_DURATION: int

  const INITIAL_LIVES: int

  const TITLE_SCREEN_DURATION: Positive
  const TITLE_WIDTH: int
  const TITLE_HEIGHT: int
}
