/** The entities of the game: the ship, asteroids, missiles and explosions.
    Each is an object whose `Update` changes its fields in place once per
    tick. Python's base class `GameObject` has no counterpart as a class: its
    `update` is the method `Advance`, which every moving entity calls, and its
    `collides_with` is `CollidesWith` on the two entities that use it. */
module GameObjects {
  import opened Config
  import opened Geometry
  import opened Randomness

  datatype Option<T> = None | Some(value: T)

  /** `GameObject.update` after velocity was added: each axis is wrapped on
      its own, teleporting to the opposite edge. */
  method Advance(x: real, y: real, vx: real, vy: real) returns (nx: real, ny: real)
    ensures 0.0 <= nx <= SCREEN_WIDTH as real && 0.0 <= ny <= SCREEN_HEIGHT as real
    ensures nx == Wrap(x + vx, SCREEN_WIDTH as real)
    ensures ny == Wrap(y + vy, SCREEN_HEIGHT as real)
  {
    nx := x + vx;
    ny := y + vy;
    if nx < 0.0 {
      nx := SCREEN_WIDTH as real;
    } else if nx > SCREEN_WIDTH as real {
      nx := 0.0;
    }
    if ny < 0.0 {
      ny := SCREEN_HEIGHT as real;
    } else if ny > SCREEN_HEIGHT as real {
      ny := 0.0;
    }
  }

  // ---------------------------------------------------------------------------
  // Countdown timers (missile lifetime, explosion duration)

  /** A countdown and the `active` flag it clears. */
  datatype Countdown = Countdown(remaining: int, active: bool)

  /** One tick of a countdown: decrement, and deactivate once nothing remains.
      Nothing ever sets the flag again. */
  function Tick(c: Countdown): (r: Countdown)
    ensures r.remaining == c.remaining - 1
    ensures r.active <==> c.active && r.remaining > 0
  {
    var left := c.remaining - 1;
    Countdown(left, if left <= 0 then false else c.active)
  }

  /** `k` ticks of a countdown. */
  function Ticks(c: Countdown, k: nat): Countdown
  {
    if k == 0 then c else Tick(Ticks(c, k - 1))
  }

  /** After `k` ticks, `k` has been taken off, and the flag is still set
      exactly when it was set at the start and every tick left something. */
  lemma {:induction false} TicksCount(c: Countdown, k: nat)
    ensures Ticks(c, k).remaining == c.remaining - k
    ensures Ticks(c, k).active <==> c.active && (k == 0 || c.remaining - k > 0)
  {
    if k > 0 {
      TicksCount(c, k - 1);
    }
  }

  /** A fresh countdown of `n >= 1` is active for its first `n - 1` ticks and
      inactive from tick `n` on. */
  lemma CountdownExpiresAfter(n: int, k: nat)
    requires n >= 1
    ensures Ticks(Countdown(n, true), k).active <==> k < n
  {
    TicksCount(Countdown(n, true), k);
  }

  /** Once inactive, a countdown stays inactive. */
  lemma CountdownNeverReactivates(c: Countdown, k: nat)
    requires !c.active
    ensures !Ticks(c, k).active
  {
    TicksCount(c, k);
  }

  // ---------------------------------------------------------------------------
  // Ship

  /** Drag strictly shrinks a non-zero velocity component and never flips
      its sign. */
  lemma DragShrinks(v: real)
    requires v != 0.0
    ensures Abs(v * SHIP_DRAG) < Abs(v)
    ensures v > 0.0 <==> v * SHIP_DRAG > 0.0
    ensures v < 0.0 <==> v * SHIP_DRAG < 0.0
  {
    if v > 0.0 {
      assert v * SHIP_DRAG < v * 1.0;
    } else {
      assert v * 1.0 < v * SHIP_DRAG;
    }
  }

  class Ship {
    var x: real
    var y: real
    var vx: real
    var vy: real
    var angle: real
    var active: bool
    var acceleration: real
    var thrusting: bool
    var size: real

    /** A still ship with its nose up and engines off. */
    constructor (x0: real, y0: real)
      ensures x == x0 && y == y0 && vx == 0.0 && vy == 0.0
      ensures angle == 0.0 && active
      ensures acceleration == 0.0 && !thrusting && size == SHIP_SIZE
    {
      x, y, vx, vy := x0, y0, 0.0, 0.0;
      angle, active := 0.0, true;
      acceleration, thrusting, size := 0.0, false, SHIP_SIZE;
    }

    /** Turns by one rotation step in the given direction (-1 or 1). */
    method Rotate(direction: int)
      modifies this`angle
      ensures angle == old(angle) + direction as real * SHIP_ROTATION_SPEED
    {
      angle := angle + direction as real * SHIP_ROTATION_SPEED;
    }

    /** Engines on: one acceleration step along the nose is added to the
        velocity, every tick the key is held. */
    method Thrust(heading: Heading)
      modifies this`thrusting, this`acceleration, this`vx, this`vy
      ensures thrusting && acceleration == SHIP_ACCELERATION
      ensures vx == old(vx) + heading(angle).x * SHIP_ACCELERATION
      ensures vy == old(vy) + heading(angle).y * SHIP_ACCELERATION
    {
      thrusting := true;
      acceleration := SHIP_ACCELERATION;
      vx := vx + heading(angle).x * acceleration;
      vy := vy + heading(angle).y * acceleration;
    }

    /** Engines off; the velocity is kept. */
    method StopThrust()
      modifies this`thrusting, this`acceleration
      ensures !thrusting && acceleration == 0.0
    {
      thrusting := false;
      acceleration := 0.0;
    }

    /** The effect of one `Update`: drag first, only while the engines are
        off, then the wrapped position step with the new velocity. */
    twostate predicate Stepped()
      reads this
      ensures Stepped() ==> 0.0 <= x <= SCREEN_WIDTH as real && 0.0 <= y <= SCREEN_HEIGHT as real
      ensures Stepped() && thrusting ==> vx == old(vx) && vy == old(vy)
    {
      && vx == (if thrusting then old(vx) else old(vx) * SHIP_DRAG)
      && vy == (if thrusting then old(vy) else old(vy) * SHIP_DRAG)
      && x == Wrap(old(x) + vx, SCREEN_WIDTH as real)
      && y == Wrap(old(y) + vy, SCREEN_HEIGHT as real)
    }

    method Update()
      modifies this`vx, this`vy, this`x, this`y
      ensures Stepped()
      ensures 0.0 <= x <= SCREEN_WIDTH as real && 0.0 <= y <= SCREEN_HEIGHT as real
    {
      if !thrusting {
        vx := vx * SHIP_DRAG;
        vy := vy * SHIP_DRAG;
      }
      x, y := Advance(x, y, vx, vy);
    }

    /** The collision box: `size` by `size`, centred on the ship. */
    function GetRect(): (r: Rect)
      reads this
      ensures r.width == size && r.height == size
      ensures r.left + size / 2.0 == x && r.top + size / 2.0 == y
    {
      CentredBox(x, y, size / 2.0)
    }

    /** `collides_with` for an asteroid: on each axis the centres are
        closer than half the ship's size plus the asteroid's radius. */
    predicate CollidesWith(other: Asteroid)
      reads this, other
      ensures CollidesWith(other) <==>
        Abs(x - other.x) < size / 2.0 + other.size && Abs(y - other.y) < size / 2.0 + other.size
    {
      CentredOverlap(x, y, size / 2.0, other.x, other.y, other.size);
      Overlaps(GetRect(), other.GetRect())
    }

    /** A missile leaves the nose, `size` ahead of the centre, with the
        muzzle speed along the nose added to the ship's own velocity. */
    method FireMissile(heading: Heading) returns (m: Missile)
      ensures fresh(m)
      ensures m.x == x + heading(angle).x * size && m.y == y + heading(angle).y * size
      ensures m.vx == heading(angle).x * MISSILE_SPEED + vx
      ensures m.vy == heading(angle).y * MISSILE_SPEED + vy
      ensures m.angle == 0.0 && m.active
      ensures m.lifetime == MISSILE_LIFETIME && m.size == MISSILE_SIZE
    {
      var nose := heading(angle);
      m := new Missile(x + nose.x * size, y + nose.y * size,
                       nose.x * MISSILE_SPEED + vx, nose.y * MISSILE_SPEED + vy);
    }
  }

  // ---------------------------------------------------------------------------
  // Asteroid

  /** One corner of an asteroid's outline in polar form: it lies at
      `45 * index` degrees, `distance` from the centre. Converting it to
      screen offsets needs sine and cosine, which are not modelled. */
  datatype Vertex = Vertex(index: nat, distance: real)

  /** How many `random` draws building an asteroid takes: the radius when
      none is given, the spin, the heading, the speed and eight corners. */
  function AsteroidDraws(size: Option<real>): (n: nat)
    ensures n == 11 || n == 12
    ensures n == 12 <==> size.None?
  {
    if size.None? then 12 else 11
  }

  /** A corner at `jitter` times a non-negative radius `s` lies between 0.7
      and 1.3 times it. */
  lemma JitterBounds(s: real, jitter: real)
    requires 0.7 <= jitter <= 1.3
    ensures s >= 0.0 ==> 0.7 * s <= s * jitter <= 1.3 * s
  {
    if s >= 0.0 {
      assert s * 0.7 <= s * jitter;
      assert s * jitter <= s * 1.3;
    }
  }

  /** The outline loop of the asteroid constructor: eight corners, corner
      `i` at angle `i * 45` degrees and at a distance of `s` times a random
      factor in [0.7, 1.3]. */
  method JaggedOutline(s: real, rng: Rng) returns (pts: seq<Vertex>)
    requires rng.Valid()
    modifies rng`drawn
    ensures rng.drawn == old(rng.drawn) + 8
    ensures |pts| == 8
    ensures forall i :: 0 <= i < 8 ==> pts[i] == Vertex(i, s * ScaleReal(rng.units(old(rng.drawn) + i), 0.7, 1.3))
    ensures s >= 0.0 ==> forall i :: 0 <= i < |pts| ==> 0.7 * s <= pts[i].distance <= 1.3 * s
  {
    pts := [];
    for i := 0 to 8
      invariant |pts| == i
      invariant rng.drawn == old(rng.drawn) + i
      invariant forall j :: 0 <= j < i ==> pts[j] == Vertex(j, s * ScaleReal(rng.units(old(rng.drawn) + j), 0.7, 1.3))
      invariant s >= 0.0 ==> forall j :: 0 <= j < i ==> 0.7 * s <= pts[j].distance <= 1.3 * s
    {
      var jitter := rng.Uniform(0.7, 1.3);
      JitterBounds(s, jitter);
      pts := pts + [Vertex(i, s * jitter)];
    }
  }

  class Asteroid {
    var x: real
    var y: real
    var vx: real
    var vy: real
    var angle: real
    var active: bool
    var size: real
    var rotationSpeed: real
    var points: seq<Vertex>

    /** An asteroid at (x0, y0): a random radius unless one is given, a
        random spin, a random heading and speed, and a jagged outline of
        eight corners, each at 0.7 to 1.3 times the radius. */
    constructor (x0: real, y0: real, size0: Option<real>, rng: Rng)
      requires rng.Valid()
      modifies rng
      ensures x == x0 && y == y0 && angle == 0.0 && active
      ensures size0.Some? ==> size == size0.value
      ensures size0.None? ==> size == ScaleInt(rng.ints(old(rng.drawn)), ASTEROID_MIN_SIZE, ASTEROID_MAX_SIZE) as real
      ensures size0.None? ==> ASTEROID_MIN_SIZE as real <= size <= ASTEROID_MAX_SIZE as real
      ensures rng.drawn == old(rng.drawn) + AsteroidDraws(size0)
      ensures var k := old(rng.drawn) + AsteroidDraws(size0) - 11;
        && rotationSpeed == ScaleReal(rng.units(k), ASTEROID_MIN_ROTATION, ASTEROID_MAX_ROTATION)
        && vx == rng.directions(k + 1).x * ScaleReal(rng.units(k + 2), ASTEROID_MIN_SPEED, ASTEROID_MAX_SPEED)
        && vy == rng.directions(k + 1).y * ScaleReal(rng.units(k + 2), ASTEROID_MIN_SPEED, ASTEROID_MAX_SPEED)
        && |points| == 8
        && forall i :: 0 <= i < 8 ==> points[i] == Vertex(i, size * ScaleReal(rng.units(k + 3 + i), 0.7, 1.3))
      ensures size >= 0.0 ==> forall i :: 0 <= i < |points| ==> 0.7 * size <= points[i].distance <= 1.3 * size
    {
      var s: real;
      if size0.None? {
        var r := rng.RandInt(ASTEROID_MIN_SIZE, ASTEROID_MAX_SIZE);
        s := r as real;
      } else {
        s := size0.value;
      }
      ghost var k := rng.drawn;
      assert k == old(rng.drawn) + AsteroidDraws(size0) - 11;
      var spin := rng.Uniform(ASTEROID_MIN_ROTATION, ASTEROID_MAX_ROTATION);
      var dir := rng.Direction();
      var speed := rng.Uniform(ASTEROID_MIN_SPEED, ASTEROID_MAX_SPEED);
      assert dir == rng.directions(k + 1);
      assert speed == ScaleReal(rng.units(k + 2), ASTEROID_MIN_SPEED, ASTEROID_MAX_SPEED);
      var pts := JaggedOutline(s, rng);
      x, y, angle, active := x0, y0, 0.0, true;
      size, rotationSpeed := s, spin;
      vx, vy := dir.x * speed, dir.y * speed;
      points := pts;
    }

    /** The effect of one `Update`: spin first, then the wrapped position
        step; velocity, spin and outline stay as they were. */
    twostate predicate Stepped()
      reads this
      ensures Stepped() ==> 0.0 <= x <= SCREEN_WIDTH as real && 0.0 <= y <= SCREEN_HEIGHT as real
    {
      && angle == old(angle) + rotationSpeed
      && x == Wrap(old(x) + vx, SCREEN_WIDTH as real)
      && y == Wrap(old(y) + vy, SCREEN_HEIGHT as real)
    }

    method Update()
      modifies this`angle, this`x, this`y
      ensures Stepped()
    {
      angle := angle + rotationSpeed;
      x, y := Advance(x, y, vx, vy);
    }

    /** The collision box: twice the radius on each side, centred on the
        asteroid. */
    function GetRect(): (r: Rect)
      reads this
      ensures r.width == 2.0 * size && r.height == 2.0 * size
      ensures r.left + size == x && r.top + size == y
    {
      CentredBox(x, y, size)
    }
  }

  // ---------------------------------------------------------------------------
  // Missile

  class Missile {
    var x: real
    var y: real
    var vx: real
    var vy: real
    var angle: real
    var active: bool
    var lifetime: int
    var size: real

    constructor (x0: real, y0: real, vx0: real, vy0: real)
      ensures x == x0 && y == y0 && vx == vx0 && vy == vy0
      ensures angle == 0.0 && active
      ensures lifetime == MISSILE_LIFETIME && size == MISSILE_SIZE
    {
      x, y, vx, vy := x0, y0, vx0, vy0;
      angle, active := 0.0, true;
      lifetime, size := MISSILE_LIFETIME, MISSILE_SIZE;
    }

    ghost function Clock(): Countdown
      reads this
    {
      Countdown(lifetime, active)
    }

    /** The effect of one `Update`: the wrapped position step, then one tick
        off the lifetime. */
    twostate predicate Stepped()
      reads this
    {
      && x == Wrap(old(x) + vx, SCREEN_WIDTH as real)
      && y == Wrap(old(y) + vy, SCREEN_HEIGHT as real)
      && Clock() == Tick(old(Clock()))
    }

    method Update()
      modifies this`x, this`y, this`lifetime, this`active
      ensures Stepped()
    {
      x, y := Advance(x, y, vx, vy);
      lifetime := lifetime - 1;
      if lifetime <= 0 {
        active := false;
      }
    }

    /** The collision box: twice the missile's radius on each side. */
    function GetRect(): (r: Rect)
      reads this
      ensures r.width == 2.0 * size && r.height == 2.0 * size
      ensures r.left + size == x && r.top + size == y
    {
      CentredBox(x, y, size)
    }

    /** `collides_with` for an asteroid: on each axis the centres are
        closer than the sum of the two radii. */
    predicate CollidesWith(other: Asteroid)
      reads this, other
      ensures CollidesWith(other) <==>
        Abs(x - other.x) < size + other.size && Abs(y - other.y) < size + other.size
    {
      CentredOverlap(x, y, size, other.x, other.y, other.size);
      Overlaps(GetRect(), other.GetRect())
    }
  }

  // ---------------------------------------------------------------------------
  // Explosion

  /** A fading ring left where an asteroid was destroyed. It never moves. */
  class Explosion {
    var x: real
    var y: real
    var size: real
    var duration: int
    var active: bool

    constructor (x0: real, y0: real, size0: real)
      ensures x == x0 && y == y0 && size == size0
      ensures duration == EXPLOSION_DURATION && active
    {
      x, y, size := x0, y0, size0;
      duration, active := EXPLOSION_DURATION, true;
    }

    ghost function Clock(): Countdown
      reads this
    {
      Countdown(duration, active)
    }

    /** One tick off the duration; position and size are outside the frame,
        so they cannot change. */
    method Update()
      modifies this`duration, this`active
      ensures Clock() == Tick(old(Clock()))
    {
      duration := duration - 1;
      if duration <= 0 {
        active := false;
      }
    }
  }

  /** An asteroid whose centre coincides with the ship's is hit by it, for
      any positive sizes. */
  lemma ShipHitsAsteroidAtItsCentre(ship: Ship, a: Asteroid)
    requires ship.size > 0.0 && a.size > 0.0
    requires a.x == ship.x && a.y == ship.y
    ensures ship.CollidesWith(a)
  {
    CentredOverlap(ship.x, ship.y, ship.size / 2.0, a.x, a.y, a.size);
  }

  /** Whether a missile hits an asteroid does not depend on which of the two
      is asked. */
  lemma MissileCollisionSymmetric(m: Missile, a: Asteroid)
    ensures m.CollidesWith(a) <==> Overlaps(a.GetRect(), m.GetRect())
  {
    OverlapsSymmetric(m.GetRect(), a.GetRect());
  }
}
