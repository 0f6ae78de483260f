/** The game flow: the title screen, the gameplay state with its per-tick
    update, and the game object that holds the score, the lives and the two
    states. Keyboard and mouse input arrive as values: the keys held this
    tick and the list of events polled this tick. */
module Game {
  import opened Config
  import opened Geometry
  import opened Randomness
  import opened Lists
  import opened GameObjects
  import opened Timers
  import opened Collisions

  // ---------------------------------------------------------------------------
  // Input

  datatype Key = Space | OtherKey

  /** The events the states react to; every other event is `OtherEvent`. */
  datatype Event = KeyDown(key: Key) | MouseButtonDown(px: int, py: int) | OtherEvent

  /** The snapshot of `pygame.key.get_pressed()` for the three arrow keys the
      gameplay state reads. */
  datatype HeldKeys = HeldKeys(left: bool, right: bool, up: bool)

  /** The result of a lookup in the `states` dictionary: Python raises
      KeyError for a name that is not one of its keys. */
  datatype Outcome = Pass | KeyError(name: string)

  /** How many space presses a list of events holds. */
  function SpacePresses(events: seq<Event>): (n: nat)
    ensures n <= |events|
    ensures n == multiset(events)[KeyDown(Space)]
  {
    if events == [] then 0
    else
      var last := events[|events| - 1];
      assert events == events[..|events| - 1] + [last];
      SpacePresses(events[..|events| - 1]) + (if last == KeyDown(Space) then 1 else 0)
  }

  /** Counting space presses over two batches of events adds up. */
  lemma {:induction false} SpacePressesAppend(a: seq<Event>, b: seq<Event>)
    ensures SpacePresses(a + b) == SpacePresses(a) + SpacePresses(b)
    decreases |b|
  {
    if b == [] {
      assert a + b == a;
    } else {
      var n := |b| - 1;
      SpacePressesAppend(a, b[..n]);
      assert (a + b)[..|a + b| - 1] == a + b[..n];
      assert (a + b)[|a + b| - 1] == b[n];
    }
  }

  /** Turning the ship this tick: left counts -1, right counts +1. */
  function Turn(keys: HeldKeys): (t: real)
    ensures keys.left == keys.right ==> t == 0.0
    ensures keys.left && !keys.right ==> t == -1.0
    ensures keys.right && !keys.left ==> t == 1.0
  {
    (if keys.left then -1.0 else 0.0) + (if keys.right then 1.0 else 0.0)
  }

  // ---------------------------------------------------------------------------
  // Properties of the entities the gameplay state creates

  /** A freshly built ship standing still in the middle of the screen. */
  ghost predicate ShipAtCentre(s: Ship)
    reads s
  {
    && s.x == (SCREEN_WIDTH / 2) as real && s.y == (SCREEN_HEIGHT / 2) as real
    && s.vx == 0.0 && s.vy == 0.0 && s.angle == 0.0 && s.active
    && s.acceleration == 0.0 && !s.thrusting && s.size == SHIP_SIZE
  }

  /** A point just outside one of the four screen edges: above the top or
      below the bottom with x in [0, SCREEN_WIDTH], or right of the right edge
      or left of the left edge with y in [0, SCREEN_HEIGHT]. The offset is the
      largest asteroid radius. */
  predicate OnSpawnEdge(x: real, y: real)
  {
    var w, h, m := SCREEN_WIDTH as real, SCREEN_HEIGHT as real, ASTEROID_MAX_SIZE as real;
    || (y == -m && 0.0 <= x <= w)
    || (x == w + m && 0.0 <= y <= h)
    || (y == h + m && 0.0 <= x <= w)
    || (x == -m && 0.0 <= y <= h)
  }

  /** Where `spawn_asteroid` places an asteroid for a side draw in [0, 3]
      and the raw draw for the coordinate along that side. */
  function SpawnPoint(side: int, raw: int): (p: (real, real))
    requires 0 <= side <= 3
    ensures OnSpawnEdge(p.0, p.1)
    ensures side == 0 ==> p.1 == -(ASTEROID_MAX_SIZE as real)
    ensures side == 1 ==> p.0 == (SCREEN_WIDTH + ASTEROID_MAX_SIZE) as real
    ensures side == 2 ==> p.1 == (SCREEN_HEIGHT + ASTEROID_MAX_SIZE) as real
    ensures side == 3 ==> p.0 == -(ASTEROID_MAX_SIZE as real)
  {
    if side == 0 then (ScaleInt(raw, 0, SCREEN_WIDTH) as real, -(ASTEROID_MAX_SIZE as real))
    else if side == 1 then ((SCREEN_WIDTH + ASTEROID_MAX_SIZE) as real, ScaleInt(raw, 0, SCREEN_HEIGHT) as real)
    else if side == 2 then (ScaleInt(raw, 0, SCREEN_WIDTH) as real, (SCREEN_HEIGHT + ASTEROID_MAX_SIZE) as real)
    else (-(ASTEROID_MAX_SIZE as real), ScaleInt(raw, 0, SCREEN_HEIGHT) as real)
  }

  /** An asteroid spawned just past an edge does not drift in when its
      speed on the crossing axis is below the offset: after its first step
      it is still past the edge, and the teleporting wrap puts it on the
      opposite edge at once. Its speed along the edge does not matter. */
  lemma SpawnWrapsAcross(side: int, raw: int, vx: real, vy: real)
    requires 0 <= side <= 3
    requires side % 2 == 0 ==> Abs(vy) < ASTEROID_MAX_SIZE as real
    requires side % 2 == 1 ==> Abs(vx) < ASTEROID_MAX_SIZE as real
    ensures var p := SpawnPoint(side, raw);
      && (side == 0 ==> Wrap(p.1 + vy, SCREEN_HEIGHT as real) == SCREEN_HEIGHT as real)
      && (side == 1 ==> Wrap(p.0 + vx, SCREEN_WIDTH as real) == 0.0)
      && (side == 2 ==> Wrap(p.1 + vy, SCREEN_HEIGHT as real) == 0.0)
      && (side == 3 ==> Wrap(p.0 + vx, SCREEN_WIDTH as real) == SCREEN_WIDTH as real)
  {
  }

  /** The first half of `spawn_asteroid`: a random side, then a random
      coordinate along it; the other coordinate is just past that edge. */
  method DrawSpawnPoint(rng: Rng) returns (x: int, y: int)
    modifies rng`drawn
    ensures var d := old(rng.drawn);
      (x as real, y as real) == SpawnPoint(ScaleInt(rng.ints(d), 0, 3), rng.ints(d + 1))
    ensures rng.drawn == old(rng.drawn) + 2
  {
    var side := rng.RandInt(0, 3);
    if side == 0 {
      x := rng.RandInt(0, SCREEN_WIDTH);
      y := -ASTEROID_MAX_SIZE;
    } else if side == 1 {
      x := SCREEN_WIDTH + ASTEROID_MAX_SIZE;
      y := rng.RandInt(0, SCREEN_HEIGHT);
    } else if side == 2 {
      x := rng.RandInt(0, SCREEN_WIDTH);
      y := SCREEN_HEIGHT + ASTEROID_MAX_SIZE;
    } else {
      x := -ASTEROID_MAX_SIZE;
      y := rng.RandInt(0, SCREEN_HEIGHT);
    }
  }

  /** A freshly spawned asteroid: on a spawn edge, unturned, active, with a
      radius in the configured range and an eight-corner outline. */
  ghost predicate Spawned(a: Asteroid)
    reads a
  {
    && OnSpawnEdge(a.x, a.y) && a.angle == 0.0 && a.active
    && ASTEROID_MIN_SIZE as real <= a.size <= ASTEROID_MAX_SIZE as real
    && |a.points| == 8
  }

  /** A missile just fired from ship `s`: at its nose, with the muzzle speed
      added to the ship's velocity, and a full lifetime. */
  ghost predicate FiredFrom(m: Missile, s: Ship, heading: Heading)
    reads m, s
  {
    var nose := heading(s.angle);
    && m.x == s.x + nose.x * s.size && m.y == s.y + nose.y * s.size
    && m.vx == nose.x * MISSILE_SPEED + s.vx && m.vy == nose.y * MISSILE_SPEED + s.vy
    && m.active && m.lifetime == MISSILE_LIFETIME && m.size == MISSILE_SIZE
  }

  /** An explosion just left where asteroid `a` was destroyed. */
  ghost predicate LeftBy(e: Explosion, a: Asteroid)
    reads e, a
  {
    e.x == a.x && e.y == a.y && e.size == a.size && e.duration == EXPLOSION_DURATION && e.active
  }

  /** The explosions a sweep keeps are the active ones. */
  lemma FadedDropped(es: seq<Explosion>, keep: seq<bool>)
    requires |keep| == |es| && forall j :: 0 <= j < |es| ==> keep[j] == es[j].active
    ensures forall e :: e in Select(es, keep) ==> e.active
  {
    var kept := Select(es, keep);
    forall e | e in kept ensures e.active {
      var k :| 0 <= k < |kept| && kept[k] == e;
      SelectOnlyFlagged(es, keep, k);
    }
  }

  /** The missiles a sweep keeps are the active ones. */
  lemma SpentDropped(ms: seq<Missile>, keep: seq<bool>)
    requires |keep| == |ms| && forall j :: 0 <= j < |ms| ==> keep[j] == ms[j].active
    ensures forall m :: m in Select(ms, keep) ==> m.active
  {
    var kept := Select(ms, keep);
    forall m | m in kept ensures m.active {
      var k :| 0 <= k < |kept| && kept[k] == m;
      SelectOnlyFlagged(ms, keep, k);
    }
  }

  /** The explosions of the missile pass after one more hit: `e` holds the
      one new explosion, left by `rock`, and was not listed before. */
  lemma ExplosionsAfterHit(before: seq<Explosion>, made: seq<Explosion>, hits: seq<Asteroid>,
                           e: seq<Explosion>, rock: Asteroid)
    requires |made| == |hits|
    requires forall t :: 0 <= t < |made| ==> made[t] !in before
    requires forall t :: 0 <= t < |made| ==> LeftBy(made[t], hits[t])
    requires |e| == 1 && e[0] !in before + made && LeftBy(e[0], rock)
    requires Distinct(before) ==> Distinct(before + made)
    ensures (before + made) + e == before + (made + e)
    ensures |made + e| == |hits + [rock]|
    ensures forall t :: 0 <= t < |made + e| ==> (made + e)[t] !in before
    ensures forall t :: 0 <= t < |made + e| ==> LeftBy((made + e)[t], (hits + [rock])[t])
    ensures Distinct(before) ==> Distinct((before + made) + e)
  {
    assert e == [e[0]];
    if Distinct(before) {
      DistinctSnoc(before + made, e[0]);
    }
    forall t | 0 <= t < |made + e| ensures (made + e)[t] !in before && LeftBy((made + e)[t], (hits + [rock])[t]) {
      if t < |made| {
        assert (made + e)[t] == made[t] && (hits + [rock])[t] == hits[t];
      } else {
        assert (made + e)[t] == e[0] && (hits + [rock])[t] == rock;
      }
    }
  }

  // ---------------------------------------------------------------------------
  // The game object

  class AsteroidsGame {
    var score: int
    var lives: int
    /** `states["title"]` */
    var title: TitleScreenState?
    /** `states["gameplay"]` */
    var gameplay: GameplayState?
    var current: object?

    /** Both states exist and point back at this game. */
    ghost predicate Valid()
      reads this
    {
      title != null && gameplay != null && title.game == this && gameplay.game == this
    }

    /** The `states` dictionary. */
    function States(): map<string, object?>
      reads this
    {
      map["title" := title, "gameplay" := gameplay]
    }

    /** A new game: no score, the full lives, a title screen that is shown
        first, and a gameplay state ready to go. */
    constructor (rng: Rng)
      requires rng.Valid()
      modifies rng
      ensures Valid()
      ensures score == 0 && lives == INITIAL_LIVES
      ensures fresh(title) && title.timer == TITLE_SCREEN_DURATION
      ensures fresh(gameplay) && gameplay.JustStarted()
      ensures current == title
    {
      score, lives := 0, INITIAL_LIVES;
      title, gameplay, current := null, null, null;
      new;
      title := new TitleScreenState(this);
      gameplay := new GameplayState(this, rng);
      current := title;
    }

    /** Switches to the state stored under `name`; any name other than the
        two keys is a KeyError and switches nothing. */
    method ChangeState(name: string) returns (outcome: Outcome)
      modifies this`current
      ensures name in States() <==> outcome == Pass
      ensures name in States() ==> current == States()[name]
      ensures name !in States() ==> outcome == KeyError(name) && current == old(current)
      ensures name == "title" ==> current == title
      ensures name == "gameplay" ==> current == gameplay
    {
      var states := States();
      if name in states {
        current := states[name];
        outcome := Pass;
      } else {
        outcome := KeyError(name);
      }
    }

    /** Back to the start: no score, the full lives and a brand-new gameplay
        state. The title state and the current state are left alone. */
    method ResetGame(rng: Rng)
      requires rng.Valid()
      modifies this`score, this`lives, this`gameplay, rng
      ensures score == 0 && lives == INITIAL_LIVES
      ensures fresh(gameplay) && gameplay.game == this && gameplay.JustStarted()
      ensures title == old(title) && current == old(current)
      ensures old(Valid()) ==> Valid()
    {
      score := 0;
      lives := INITIAL_LIVES;
      gameplay := new GameplayState(this, rng);
    }
  }

  // ---------------------------------------------------------------------------
  // Title screen

  /** The clickable title box, centred on the screen. Python's `//` floors;
      with the divisor 2 Dafny's `/` gives the same quotient, also for a
      negative difference. */
  function TitleRect(): (r: Rect)
    ensures 2.0 * r.left + r.width <= SCREEN_WIDTH as real < 2.0 * r.left + r.width + 2.0
    ensures 2.0 * r.top + r.height <= SCREEN_HEIGHT as real < 2.0 * r.top + r.height + 2.0
    ensures r.width == TITLE_WIDTH as real && r.height == TITLE_HEIGHT as real
  {
    Rect(((SCREEN_WIDTH - TITLE_WIDTH) / 2) as real, ((SCREEN_HEIGHT - TITLE_HEIGHT) / 2) as real,
         TITLE_WIDTH as real, TITLE_HEIGHT as real)
  }

  /** A mouse click inside box `r`. */
  predicate ClickInside(e: Event, r: Rect)
    ensures !e.MouseButtonDown? ==> !ClickInside(e, r)
    ensures ClickInside(e, r) ==> r.width > 0.0 && r.height > 0.0
  {
    e.MouseButtonDown? && ContainsPoint(r, e.px as real, e.py as real)
  }

  class TitleScreenState {
    const game: AsteroidsGame
    var timer: int
    const titleRect: Rect

    constructor (game: AsteroidsGame)
      ensures this.game == game && timer == TITLE_SCREEN_DURATION && titleRect == TitleRect()
    {
      this.game := game;
      timer := TITLE_SCREEN_DURATION;
      titleRect := TitleRect();
    }

    /** One tick of the looping timer; it never leaves [1, TITLE_SCREEN_DURATION]. */
    method Update()
      modifies this`timer
      ensures timer == NextTitleTimer(old(timer))
      ensures 1 <= old(timer) <= TITLE_SCREEN_DURATION ==> 1 <= timer <= TITLE_SCREEN_DURATION
    {
      timer := timer - 1;
      if timer <= 0 {
        timer := TITLE_SCREEN_DURATION;
      }
    }

    /** Every click inside the title box resets the game and switches to
        the gameplay state; without such a click nothing changes. */
    method HandleEvents(events: seq<Event>, rng: Rng)
      requires rng.Valid()
      modifies game`score, game`lives, game`gameplay, game`current, rng
      ensures game.title == old(game.title)
      ensures (forall i :: 0 <= i < |events| ==> !ClickInside(events[i], titleRect)) ==>
        && game.score == old(game.score) && game.lives == old(game.lives)
        && game.gameplay == old(game.gameplay) && game.current == old(game.current)
        && rng.drawn == old(rng.drawn)
      ensures (exists i :: 0 <= i < |events| && ClickInside(events[i], titleRect)) ==>
        && game.score == 0 && game.lives == INITIAL_LIVES
        && fresh(game.gameplay) && game.gameplay.game == game && game.gameplay.JustStarted()
        && game.current == game.gameplay
      ensures old(game.Valid()) ==> game.Valid()
    {
      ghost var clicked := false;
      for i := 0 to |events|
        invariant rng.Valid()
        invariant game.title == old(game.title)
        invariant old(game.Valid()) ==> game.Valid()
        invariant clicked <==> exists j :: 0 <= j < i && ClickInside(events[j], titleRect)
        invariant !clicked ==>
          && game.score == old(game.score) && game.lives == old(game.lives)
          && game.gameplay == old(game.gameplay) && game.current == old(game.current)
          && rng.drawn == old(rng.drawn)
        invariant clicked ==>
          && game.score == 0 && game.lives == INITIAL_LIVES
          && fresh(game.gameplay) && game.gameplay.game == game && game.gameplay.JustStarted()
          && game.current == game.gameplay
      {
        var event := events[i];
        if event.MouseButtonDown? {
          if ContainsPoint(titleRect, event.px as real, event.py as real) {
            game.ResetGame(rng);
            var outcome := game.ChangeState("gameplay");
            assert outcome == Pass;
            clicked := true;
          }
        }
      }
    }
  }

  // ---------------------------------------------------------------------------
  // Gameplay

  class GameplayState {
    const game: AsteroidsGame
    var ship: Ship
    var asteroids: seq<Asteroid>
    var missiles: seq<Missile>
    var explosions: seq<Explosion>
    var asteroidTimer: int

    /** No object is listed twice, and the spawn counter is below the rate. */
    ghost predicate Valid()
      reads this
    {
      && Distinct(asteroids) && Distinct(missiles) && Distinct(explosions)
      && 0 <= asteroidTimer < ASTEROID_SPAWN_RATE
    }

    /** The state right after construction. */
    ghost predicate JustStarted()
      reads this, ship, asteroids
    {
      && Valid() && ShipAtCentre(ship)
      && missiles == [] && explosions == [] && asteroidTimer == 0
      && |asteroids| == ASTEROID_COUNT
      && forall i :: 0 <= i < |asteroids| ==> Spawned(asteroids[i])
    }

    /** A ship in the middle, ASTEROID_COUNT spawned asteroids, no missiles,
        no explosions and the spawn counter at 0. */
    constructor (game: AsteroidsGame, rng: Rng)
      requires rng.Valid()
      modifies rng
      ensures this.game == game && JustStarted()
      ensures fresh(ship) && forall i :: 0 <= i < |asteroids| ==> fresh(asteroids[i])
      ensures rng.drawn == old(rng.drawn) + 14 * ASTEROID_COUNT
    {
      this.game := game;
      ship := new Ship((SCREEN_WIDTH / 2) as real, (SCREEN_HEIGHT / 2) as real);
      asteroids := [];
      missiles := [];
      explosions := [];
      asteroidTimer := 0;
      new;
      for k := 0 to ASTEROID_COUNT
        invariant |asteroids| == k && Distinct(asteroids)
        invariant forall i :: 0 <= i < k ==> Spawned(asteroids[i]) && fresh(asteroids[i])
        invariant ShipAtCentre(ship) && fresh(ship)
        invariant missiles == [] && explosions == [] && asteroidTimer == 0
        invariant rng.drawn == old(rng.drawn) + 14 * k
      {
        SpawnAsteroid(rng);
      }
    }

    /** Appends one new asteroid just outside a random screen edge; the
        asteroids already listed stay as they are. */
    method SpawnAsteroid(rng: Rng)
      requires rng.Valid()
      modifies this`asteroids, rng
      ensures |asteroids| == |old(asteroids)| + 1 && asteroids[..|old(asteroids)|] == old(asteroids)
      ensures fresh(asteroids[|old(asteroids)|]) && Spawned(asteroids[|old(asteroids)|])
      ensures var d := old(rng.drawn);
        var a := asteroids[|old(asteroids)|];
        (a.x, a.y) == SpawnPoint(ScaleInt(rng.ints(d), 0, 3), rng.ints(d + 1))
      ensures rng.drawn == old(rng.drawn) + 14
      ensures old(Distinct(asteroids)) ==> Distinct(asteroids)
    {
      var x, y := DrawSpawnPoint(rng);
      var a := new Asteroid(x as real, y as real, None, rng);
      if Distinct(asteroids) {
        DistinctSnoc(asteroids, a);
      }
      asteroids := asteroids + [a];
    }

    /** One missile per space press, each fired from the ship as it stands;
        the missiles already listed stay, in order. */
    method HandleEvents(events: seq<Event>, heading: Heading)
      modifies this`missiles
      ensures |missiles| == |old(missiles)| + SpacePresses(events)
      ensures missiles[..|old(missiles)|] == old(missiles)
      ensures forall i :: |old(missiles)| <= i < |missiles| ==>
        fresh(missiles[i]) && FiredFrom(missiles[i], ship, heading)
      ensures old(Distinct(missiles)) ==> Distinct(missiles)
    {
      for i := 0 to |events|
        invariant |missiles| == |old(missiles)| + SpacePresses(events[..i])
        invariant missiles[..|old(missiles)|] == old(missiles)
        invariant forall j :: |old(missiles)| <= j < |missiles| ==>
          fresh(missiles[j]) && FiredFrom(missiles[j], ship, heading)
        invariant old(Distinct(missiles)) ==> Distinct(missiles)
      {
        assert events[..i + 1][..i] == events[..i];
        var event := events[i];
        if event.KeyDown? {
          if event.key == Space {
            var m := ship.FireMissile(heading);
            if Distinct(missiles) {
              DistinctSnoc(missiles, m);
            }
            missiles := missiles + [m];
          }
        }
      }
      assert events[..|events|] == events;
    }

    // -------------------------------------------------------------------------
    // The phases of one gameplay tick, in the order `update` runs them

    /** Arrow keys: left turns back, right turns forward, and up runs the
        engines along the nose as it points after turning; without up the
        engines are off and the velocity is kept. */
    method SteerShip(keys: HeldKeys, heading: Heading)
      modifies ship`angle, ship`thrusting, ship`acceleration, ship`vx, ship`vy
      ensures ship.angle == old(ship.angle) + Turn(keys) * SHIP_ROTATION_SPEED
      ensures ship.thrusting == keys.up
      ensures ship.acceleration == if keys.up then SHIP_ACCELERATION else 0.0
      ensures ship.vx == if keys.up then old(ship.vx) + heading(ship.angle).x * SHIP_ACCELERATION else old(ship.vx)
      ensures ship.vy == if keys.up then old(ship.vy) + heading(ship.angle).y * SHIP_ACCELERATION else old(ship.vy)
    {
      if keys.left {
        ship.Rotate(-1);
      }
      if keys.right {
        ship.Rotate(1);
      }
      if keys.up {
        ship.Thrust(heading);
      } else {
        ship.StopThrust();
      }
    }

    /** The ship and then every asteroid take their step. */
    method MoveShipAndAsteroids()
      requires Distinct(asteroids)
      modifies ship`vx, ship`vy, ship`x, ship`y, asteroids`angle, asteroids`x, asteroids`y
      ensures ship.Stepped()
      ensures forall i :: 0 <= i < |asteroids| ==> asteroids[i].Stepped()
    {
      ship.Update();
      var all := asteroids;
      for i := 0 to |all|
        invariant ship.Stepped()
        invariant forall j {:trigger all[j].Stepped()} :: 0 <= j < i ==> all[j].Stepped()
        invariant forall j :: i <= j < |all| ==> unchanged(all[j])
      {
        DistinctNotBefore(all, i);
        all[i].Update();
      }
    }

    /** Every missile takes its step, and the ones that ran out are dropped;
        the rest keep their order and are all active. */
    method SweepMissiles() returns (ghost keep: seq<bool>)
      requires Distinct(missiles)
      modifies this`missiles, missiles`x, missiles`y, missiles`lifetime, missiles`active
      ensures forall i :: 0 <= i < |old(missiles)| ==> old(missiles)[i].Stepped()
      ensures |keep| == |old(missiles)| && forall i :: 0 <= i < |keep| ==> keep[i] == old(missiles)[i].active
      ensures missiles == Select(old(missiles), keep)
      ensures Distinct(missiles)
      ensures forall m :: m in missiles ==> m.active
    {
      var all := missiles;
      var list := all;
      keep := [];
      for i := 0 to |all|
        invariant |keep| == i
        invariant forall j :: 0 <= j < i ==> all[j].Stepped()
        invariant forall j :: i <= j < |all| ==> unchanged(all[j])
        invariant forall j :: 0 <= j < i ==> keep[j] == all[j].active
        invariant list == Swept(all, keep)
      {
        var missile := all[i];
        DistinctNotBefore(all, i);
        SweptHas(all, keep);
        missile.Update();
        if !missile.active {
          list := RemoveFirst(list, missile);
        }
        assert (keep + [missile.active])[..i] == keep;
        keep := keep + [missile.active];
      }
      SweptAll(all, keep);
      SelectDistinct(all, keep);
      SpentDropped(all, keep);
      missiles := list;
    }

    /** Every explosion ticks, and the ones that faded are dropped; the rest
        keep their order and are all active. */
    method SweepExplosions() returns (ghost keep: seq<bool>)
      requires Distinct(explosions)
      modifies this`explosions, explosions`duration, explosions`active
      ensures forall i :: 0 <= i < |old(explosions)| ==>
        old(explosions)[i].Clock() == Tick(old(explosions[i].Clock()))
      ensures |keep| == |old(explosions)| && forall i :: 0 <= i < |keep| ==> keep[i] == old(explosions)[i].active
      ensures explosions == Select(old(explosions), keep)
      ensures Distinct(explosions)
      ensures forall e :: e in explosions ==> e.active
    {
      var all := explosions;
      var list := all;
      keep := [];
      for i := 0 to |all|
        invariant |keep| == i
        invariant forall j :: 0 <= j < i ==> all[j].Clock() == Tick(old(all[j].Clock()))
        invariant forall j :: i <= j < |all| ==> unchanged(all[j])
        invariant forall j :: 0 <= j < i ==> keep[j] == all[j].active
        invariant list == Swept(all, keep)
      {
        var explosion := all[i];
        DistinctNotBefore(all, i);
        SweptHas(all, keep);
        explosion.Update();
        if !explosion.active {
          list := RemoveFirst(list, explosion);
        }
        assert (keep + [explosion.active])[..i] == keep;
        keep := keep + [explosion.active];
      }
      SweptAll(all, keep);
      SelectDistinct(all, keep);
      FadedDropped(all, keep);
      explosions := list;
    }

    /** The missile hit the asteroid at position `j`, the first of its kind:
        an explosion `e` where the asteroid was, the missile and the asteroid
        off their lists, one point more. */
    method Destroy(missile: Missile, asteroid: Asteroid, ghost j: nat) returns (e: Explosion)
      requires j < |asteroids| && asteroids[j] == asteroid
      requires forall t :: 0 <= t < j ==> asteroids[t] != asteroid
      modifies this`missiles, this`asteroids, this`explosions, game`score
      ensures asteroids == old(asteroids)[..j] + old(asteroids)[j + 1..]
      ensures missiles == if missile in old(missiles) then RemoveFirst(old(missiles), missile) else old(missiles)
      ensures explosions == old(explosions) + [e] && fresh(e) && LeftBy(e, asteroid)
      ensures game.score == old(game.score) + 1
    {
      e := new Explosion(asteroid.x, asteroid.y, asteroid.size);
      explosions := explosions + [e];
      if missile in missiles {
        missiles := RemoveFirst(missiles, missile);
      }
      RemoveFirstAt(asteroids, j);
      if asteroid in asteroids {
        asteroids := RemoveFirst(asteroids, asteroid);
      }
      game.score := game.score + 1;
    }

    /** `for asteroid in self.asteroids[:]` for one missile: the first
        asteroid it collides with, in list order, is destroyed and leaves an
        explosion, the missile is dropped and the score goes up by one; when
        it collides with none, nothing changes. The asteroids are drawn from
        `targets`, and `struck` names those of `targets` the missile
        overlaps. */
    method MissileHit(missile: Missile, ghost targets: seq<Asteroid>, ghost struck: set<Asteroid>)
      returns (ghost k: nat, ghost made: seq<Explosion>)
      requires struck == Struck(missile.GetRect(), targets)
      requires forall t :: 0 <= t < |asteroids| ==> asteroids[t] in targets
      modifies this`missiles, this`asteroids, this`explosions, game`score
      ensures k == FirstIn(old(asteroids), struck)
      ensures explosions == old(explosions) + made
      ensures k == |old(asteroids)| ==>
        && missiles == old(missiles) && asteroids == old(asteroids)
        && made == [] && game.score == old(game.score)
      ensures k < |old(asteroids)| ==>
        && asteroids == old(asteroids)[..k] + old(asteroids)[k + 1..]
        && missiles == (if missile in old(missiles) then RemoveFirst(old(missiles), missile) else old(missiles))
        && |made| == 1 && fresh(made[0]) && made[0] !in old(explosions) && LeftBy(made[0], old(asteroids)[k])
        && game.score == old(game.score) + 1
    {
      var list := asteroids;
      StruckAmong(missile, targets, list);
      k, made := |list|, [];
      for j := 0 to |list|
        invariant missiles == old(missiles) && asteroids == list
        invariant explosions == old(explosions) && game.score == old(game.score)
        invariant forall t :: 0 <= t < j ==> list[t] !in struck
      {
        var asteroid := list[j];
        if missile.CollidesWith(asteroid) {
          var e := Destroy(missile, asteroid, j);
          FirstInAt(list, struck, j);
          k, made := j, [e];
          break;
        }
      }
      if k == |list| {
        FirstInNone(list, struck);
      }
    }

    /** One turn of `for missile in self.missiles[:]`, as bookkeeping over
        the pass so far: `v` is the outcome before the turn, `rest` the
        missiles after `missile` not yet taken, `made` the explosions left so
        far on top of `before`, and `start` the score before the pass. The
        missile strikes what `strikes` records for it, among the asteroids
        of `targets`. */
    method MissileTurn(missile: Missile, ghost targets: seq<Asteroid>, ghost strikes: map<Missile, set<Asteroid>>,
                       ghost v: Volley, ghost rest: seq<Missile>, ghost made: seq<Explosion>,
                       ghost before: seq<Explosion>, ghost start: int)
      returns (ghost w: Volley, ghost made': seq<Explosion>)
      requires missiles == v.kept + ([missile] + rest) && Distinct(missiles)
      requires asteroids == v.left && forall t :: 0 <= t < |v.left| ==> v.left[t] in targets
      requires StruckBy(strikes, missile) == Struck(missile.GetRect(), targets)
      requires explosions == before + made && |made| == |v.hit|
      requires forall t :: 0 <= t < |made| ==> made[t] !in before
      requires forall t :: 0 <= t < |made| ==> LeftBy(made[t], v.hit[t])
      requires Distinct(before) ==> Distinct(explosions)
      requires game.score == start + |v.hit|
      modifies this`missiles, this`asteroids, this`explosions, game`score
      ensures w == VolleyStep(v, missile, strikes)
      ensures missiles == w.kept + rest && Distinct(missiles)
      ensures asteroids == w.left
      ensures explosions == before + made' && |made'| == |w.hit|
      ensures forall t :: 0 <= t < |made'| ==> made'[t] !in before
      ensures forall t :: 0 <= t < |made'| ==> LeftBy(made'[t], w.hit[t])
      ensures Distinct(before) ==> Distinct(explosions)
      ensures game.score == start + |w.hit|
    {
      label Turn:
      ghost var k, e := MissileHit(missile, targets, StruckBy(strikes, missile));
      forall t | 0 <= t < |made| ensures LeftBy(made[t], v.hit[t]) {
        assert old@Turn(LeftBy(made[t], v.hit[t]));
      }
      if k < |v.left| {
        ghost var rock := v.left[k];
        w := Volley(v.kept, asteroids, v.hit + [rock]);
        assert w == VolleyStep(v, missile, strikes);
        TakeQueued(v.kept, missile, rest);
        ExplosionsAfterHit(before, made, v.hit, e, rock);
        made' := made + e;
      } else {
        w := Volley(v.kept + [missile], asteroids, v.hit);
        assert w == VolleyStep(v, missile, strikes);
        assert missiles == w.kept + rest;
        made' := made;
      }
    }

    /** Where the missile pass stands after the first `i` missiles of the
        list `all` taken at its start: the missiles kept so far followed by
        those not yet taken, the asteroids left, one new explosion per
        asteroid destroyed on top of `before`, and one point per asteroid
        on top of `start`. */
    ghost predicate MidPass(all: seq<Missile>, i: nat, targets: seq<Asteroid>,
                            strikes: map<Missile, set<Asteroid>>, v: Volley,
                            made: seq<Explosion>, before: seq<Explosion>, start: int)
      reads this, game, made, v.hit
    {
      && i <= |all|
      && v == MissileVolley(all[..i], targets, strikes)
      && missiles == v.kept + all[i..] && Distinct(missiles)
      && asteroids == v.left
      && explosions == before + made && |made| == |v.hit|
      && (forall t :: 0 <= t < |made| ==> made[t] !in before)
      && (forall t :: 0 <= t < |made| ==> LeftBy(made[t], v.hit[t]))
      && (Distinct(before) ==> Distinct(explosions))
      && game.score == start + |v.hit|
    }

    /** Missile `i` of the list `all` taken at the start of the missile
        pass takes its turn: before it the lists and the score stand as the
        pass over the first `i` missiles left them, after it as the pass
        over the first `i + 1`. */
    method MissileStep(all: seq<Missile>, i: nat, ghost targets: seq<Asteroid>,
                       ghost strikes: map<Missile, set<Asteroid>>, ghost v: Volley,
                       ghost made: seq<Explosion>, ghost before: seq<Explosion>, ghost start: int)
      returns (ghost w: Volley, ghost made': seq<Explosion>)
      requires i < |all| && StruckLinked(all, i, targets, strikes)
      requires MidPass(all, i, targets, strikes, v, made, before, start)
      modifies this`missiles, this`asteroids, this`explosions, game`score
      ensures MidPass(all, i + 1, targets, strikes, w, made', before, start)
    {
      VolleyNext(all, targets, strikes, i);
      DropFirst(all, i);
      w, made' := MissileTurn(all[i], targets, strikes, v, all[i + 1..], made, before, start);
    }

    /** The same turn, which leaves the missiles and asteroids themselves
        alone, so the later missiles keep what `strikes` records for them. */
    method LinkedStep(all: seq<Missile>, i: nat, ghost targets: seq<Asteroid>,
                      ghost strikes: map<Missile, set<Asteroid>>, ghost v: Volley,
                      ghost made: seq<Explosion>, ghost before: seq<Explosion>, ghost start: int)
      returns (ghost w: Volley, ghost made': seq<Explosion>)
      requires i < |all| && StruckLinked(all, i, targets, strikes)
      requires MidPass(all, i, targets, strikes, v, made, before, start)
      modifies this`missiles, this`asteroids, this`explosions, game`score
      ensures StruckLinked(all, i + 1, targets, strikes)
      ensures MidPass(all, i + 1, targets, strikes, w, made', before, start)
    {
      w, made' := MissileStep(all, i, targets, strikes, v, made, before, start);
      forall j | i + 1 <= j < |all|
        ensures StruckBy(strikes, all[j]) == Struck(all[j].GetRect(), targets)
      {
        assert old(StruckBy(strikes, all[j]) == Struck(all[j].GetRect(), targets));
      }
    }

    /** The missile pass: each missile in turn, in list order, destroys the
        first asteroid it collides with among those still listed. Every
        listed object is either kept or destroyed, each asteroid destroyed
        leaves one new explosion, in the order of the hits, and scores one
        point. */
    method ResolveMissileHits() returns (ghost v: Volley, ghost made: seq<Explosion>)
      requires Distinct(missiles) && Distinct(asteroids)
      modifies this`missiles, this`asteroids, this`explosions, game`score
      ensures v == MissileVolley(old(missiles), old(asteroids), old(Strikes(missiles, asteroids)))
      ensures missiles == v.kept && asteroids == v.left
      ensures explosions == old(explosions) + made && |made| == |v.hit|
      ensures forall t :: 0 <= t < |made| ==> made[t] !in old(explosions) && LeftBy(made[t], v.hit[t])
      ensures game.score == old(game.score) + |v.hit|
      ensures Distinct(missiles) && Distinct(asteroids)
      ensures old(Distinct(explosions)) ==> Distinct(explosions)
    {
      var all := missiles;
      ghost var targets := asteroids;
      ghost var strikes := Strikes(all, targets);
      v, made := Volley([], targets, []), [];
      assert all[..0] == [];
      for i := 0 to |all|
        invariant StruckLinked(all, i, targets, strikes)
        invariant MidPass(all, i, targets, strikes, v, made, old(explosions), old(game.score))
      {
        v, made := LinkedStep(all, i, targets, strikes, v, made, old(explosions), old(game.score));
      }
      assert all[..|all|] == all;
      assert missiles == v.kept + [];
      VolleyHitsDistinct(all, targets, strikes);
    }

    /** The ship hit the asteroid at position `j`, the first of its kind:
        an explosion `e` where the asteroid was, the asteroid off its list
        and one life less. With no life left the game switches to the title
        screen; otherwise a new ship stands in the middle. */
    method Crash(asteroid: Asteroid, ghost j: nat) returns (e: Explosion)
      requires j < |asteroids| && asteroids[j] == asteroid
      requires forall t :: 0 <= t < j ==> asteroids[t] != asteroid
      modifies this`asteroids, this`explosions, this`ship, game`lives, game`current
      ensures asteroids == old(asteroids)[..j] + old(asteroids)[j + 1..]
      ensures explosions == old(explosions) + [e] && fresh(e) && LeftBy(e, asteroid)
      ensures game.lives == old(game.lives) - 1
      ensures game.lives <= 0 ==> game.current == game.title && ship == old(ship)
      ensures game.lives > 0 ==> game.current == old(game.current) && fresh(ship) && ShipAtCentre(ship)
    {
      e := new Explosion(asteroid.x, asteroid.y, asteroid.size);
      explosions := explosions + [e];
      RemoveFirstAt(asteroids, j);
      if asteroid in asteroids {
        asteroids := RemoveFirst(asteroids, asteroid);
      }
      game.lives := game.lives - 1;
      if game.lives <= 0 {
        var outcome := game.ChangeState("title");
      } else {
        ship := new Ship((SCREEN_WIDTH / 2) as real, (SCREEN_HEIGHT / 2) as real);
      }
    }

    /** `for asteroid in self.asteroids[:]` for the ship: the first asteroid
        it collides with, in list order, is destroyed as `Crash` says, and
        the scan stops; when it collides with none, nothing changes. */
    method ResolveShipHit() returns (ghost k: nat, ghost e: seq<Explosion>)
      modifies this`asteroids, this`explosions, this`ship, game`lives, game`current
      ensures k == old(FirstHit(ship.GetRect(), asteroids))
      ensures explosions == old(explosions) + e
      ensures k == |old(asteroids)| ==>
        && e == [] && asteroids == old(asteroids) && ship == old(ship)
        && game.lives == old(game.lives) && game.current == old(game.current)
      ensures k < |old(asteroids)| ==>
        && asteroids == old(asteroids)[..k] + old(asteroids)[k + 1..]
        && |e| == 1 && fresh(e[0]) && LeftBy(e[0], old(asteroids)[k])
        && game.lives == old(game.lives) - 1
        && (game.lives <= 0 ==> game.current == game.title && ship == old(ship))
        && (game.lives > 0 ==> game.current == old(game.current) && fresh(ship) && ShipAtCentre(ship))
      ensures old(Distinct(asteroids)) ==> Distinct(asteroids)
      ensures old(Distinct(explosions)) ==> Distinct(explosions)
    {
      var list := asteroids;
      ghost var box := ship.GetRect();
      k, e := |list|, [];
      for j := 0 to |list|
        invariant asteroids == list && explosions == old(explosions) && ship == old(ship)
        invariant game.lives == old(game.lives) && game.current == old(game.current)
        invariant forall t :: 0 <= t < j ==> !Overlaps(box, list[t].GetRect())
      {
        var asteroid := list[j];
        if ship.CollidesWith(asteroid) {
          FirstHitAt(box, list, j);
          if Distinct(list) {
            DistinctWithout(list, j);
          }
          var x := Crash(asteroid, j);
          if Distinct(old(explosions)) {
            DistinctSnoc(old(explosions), x);
          }
          k, e := j, [x];
          break;
        }
      }
      if k == |list| {
        FirstHitNone(box, list);
      }
    }

    /** The first half of a tick: steering, then every object takes its
        step and the spent missiles and faded explosions are dropped. The
        asteroids stay listed as they were, and what is left of the other
        two lists is active. */
    method MovePhase(keys: HeldKeys, heading: Heading)
      requires Valid()
      modifies ship`angle, ship`thrusting, ship`acceleration, ship`vx, ship`vy, ship`x, ship`y
      modifies asteroids`angle, asteroids`x, asteroids`y
      modifies this`missiles, missiles`x, missiles`y, missiles`lifetime, missiles`active
      modifies this`explosions, explosions`duration, explosions`active
      ensures Valid() && asteroids == old(asteroids)
      ensures |missiles| <= |old(missiles)|
      ensures forall m :: m in missiles ==> m.active
      ensures forall e :: e in explosions ==> e.active
    {
      SteerShip(keys, heading);
      MoveShipAndAsteroids();
      ghost var keepMissiles, keepExplosions := SweepLists();
    }

    /** Both sweeps: every missile and then every explosion takes its step,
        and the spent missiles and faded explosions are dropped; the rest
        keep their order and are all active. */
    method SweepLists() returns (ghost keepMissiles: seq<bool>, ghost keepExplosions: seq<bool>)
      requires Distinct(missiles) && Distinct(explosions)
      modifies this`missiles, missiles`x, missiles`y, missiles`lifetime, missiles`active
      modifies this`explosions, explosions`duration, explosions`active
      ensures forall i :: 0 <= i < |old(missiles)| ==> old(missiles)[i].Stepped()
      ensures forall i :: 0 <= i < |old(explosions)| ==>
        old(explosions)[i].Clock() == Tick(old(explosions[i].Clock()))
      ensures |keepMissiles| == |old(missiles)|
      ensures forall i :: 0 <= i < |keepMissiles| ==> keepMissiles[i] == old(missiles)[i].active
      ensures |keepExplosions| == |old(explosions)|
      ensures forall i :: 0 <= i < |keepExplosions| ==> keepExplosions[i] == old(explosions)[i].active
      ensures missiles == Select(old(missiles), keepMissiles) && Distinct(missiles)
      ensures explosions == Select(old(explosions), keepExplosions) && Distinct(explosions)
      ensures forall m :: m in missiles ==> m.active
      ensures forall e :: e in explosions ==> e.active
    {
      keepMissiles := SweepMissiles();
      ghost var swept := missiles;
      keepExplosions := SweepExplosions();
      assert missiles == swept;
    }

    /** The missile pass as the tick sees it: the lists stay free of
        repeats, and the score goes up by one per asteroid destroyed, at
        most one per missile. */
    method MissilePhase() returns (ghost hits: nat)
      requires Valid()
      modifies this`missiles, this`asteroids, this`explosions, game`score
      ensures Valid()
      ensures game.score == old(game.score) + hits && hits <= |old(missiles)|
    {
      ghost var v, made := ResolveMissileHits();
      hits := |v.hit|;
    }

    /** The ship check as the tick sees it: the lists stay free of repeats,
        and a crash costs one life and, on the last one, ends the game. */
    method ShipPhase() returns (ghost crashed: bool)
      requires Valid()
      modifies this`asteroids, this`explosions, this`ship, game`lives, game`current
      ensures Valid()
      ensures game.lives == old(game.lives) - (if crashed then 1 else 0)
      ensures crashed && game.lives <= 0 ==> game.current == game.title
    {
      ghost var k, e := ResolveShipHit();
      crashed := k < |old(asteroids)|;
    }

    /** One tick of play, the phases in the order `update` runs them:
        steering, movement and the two sweeps, the spawn counter, the missile
        pass and the ship check. The lists stay free of repeats and the
        counter in range; the score goes up by at most one per missile listed
        at the start, and at most one life is lost, which ends the game on
        the last one. */
    method Update(keys: HeldKeys, heading: Heading, rng: Rng)
      requires Valid() && rng.Valid()
      modifies this`ship, this`asteroids, this`missiles, this`explosions, this`asteroidTimer
      modifies ship`angle, ship`thrusting, ship`acceleration, ship`vx, ship`vy, ship`x, ship`y
      modifies asteroids`angle, asteroids`x, asteroids`y
      modifies missiles`x, missiles`y, missiles`lifetime, missiles`active
      modifies explosions`duration, explosions`active
      modifies rng, game`score, game`lives, game`current
      ensures Valid()
      ensures asteroidTimer == NextSpawnTimer(old(asteroidTimer))
      ensures old(game.score) <= game.score <= old(game.score) + |old(missiles)|
      ensures old(game.lives) - 1 <= game.lives <= old(game.lives)
      ensures game.lives < old(game.lives) && game.lives <= 0 ==> game.current == game.title
    {
      MovePhase(keys, heading);
      AdvanceSpawnTimer(rng);
      ghost var hits := MissilePhase();
      ghost var crashed := ShipPhase();
    }

    /** The spawn counter: one more tick, and on reaching the rate a new
        asteroid and a reset to 0. */
    method AdvanceSpawnTimer(rng: Rng)
      requires rng.Valid()
      modifies this`asteroidTimer, this`asteroids, rng
      ensures asteroidTimer == NextSpawnTimer(old(asteroidTimer))
      ensures !SpawnDue(old(asteroidTimer)) ==> asteroids == old(asteroids) && rng.drawn == old(rng.drawn)
      ensures SpawnDue(old(asteroidTimer)) ==>
        && |asteroids| == |old(asteroids)| + 1 && asteroids[..|old(asteroids)|] == old(asteroids)
        && fresh(asteroids[|old(asteroids)|]) && Spawned(asteroids[|old(asteroids)|])
      ensures old(Distinct(asteroids)) ==> Distinct(asteroids)
    {
      asteroidTimer := asteroidTimer + 1;
      if asteroidTimer >= ASTEROID_SPAWN_RATE {
        SpawnAsteroid(rng);
        asteroidTimer := 0;
      }
    }
  }
}
