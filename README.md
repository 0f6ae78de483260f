# Asteroids: entity step rules and the gameplay tick

A model of the core of a small pygame Asteroids clone:

- **The entities** (`game_objects.py`): the ship, asteroids, missiles and explosions.
  - Each is a class whose `Update` changes its fields in place.
  - Every moving entity shares the teleporting screen wrap.
  - Collisions are tested by overlap of centred bounding boxes.
- **The gameplay tick** (`main.py`, `GameplayState.update`), in the order the source runs it:
  - steering;
  - movement;
  - the sweeps that drop spent missiles and faded explosions;
  - the asteroid spawn counter;
  - the missile pass, where each missile destroys the first asteroid it overlaps, in list order;
  - the ship check, where at most one asteroid is hit and a life is lost.
- **The game flow**: the title screen with its looping timer, and click-to-start. `AsteroidsGame` holds the score, the lives, the two states, `change_state` and `reset_game`.

Files and modules:

| file | module | contents |
|---|---|---|
| `config.dfy` | `Config` | The game's constants. They are symbolic, because the configuration file is not part of this model. Each one is typed only by the range the game needs. |
| `geometry.dfy` | `Geometry` | The wrap of one coordinate; boxes; pygame's `colliderect` and `collidepoint`. |
| `randomness.dfy` | `Randomness` | Python's `random` module, as fixed streams of draws with a draw counter. |
| `lists.dfy` | `Lists` | `list.remove`; the copy-then-remove sweep; distinctness. |
| `game_objects.dfy` | `GameObjects` | `Ship`, `Asteroid`, `Missile` and `Explosion`. |
| `collisions.dfy` | `Collisions` | What the two collision passes compute, as functions of the lists. |
| `timers.dfy` | `Timers` | The spawn counter and the title timer. |
| `game.dfy` | `Game` | `AsteroidsGame`, `TitleScreenState` and `GameplayState`. |

How the source is mapped:

- **Lists and classes.** Python lists of objects are `seq` fields holding references to class instances.
  - The spawn, the firing and both collision passes reassign the field where the source calls `append` or `remove`.
  - The two sweeps build the filtered list in a local variable and write the field once after the loop. The result is the same, because nothing reads the field during the sweep.
- **Field-level frames.** Each method may change only the fields the source's `update` changes, and on a list of objects only those fields of its elements. For example, the asteroid step may change only `angle`, `x` and `y` of each asteroid.
- **The `for x in list[:]` loops** are `for` loops over a snapshot of the list. Their effect is stated against specification functions:
  - `Select` and `Swept` for the sweeps;
  - `MissileVolley` for the missile pass;
  - `FirstHit` for the ship check.
- **`GameplayState.update`** is split into one method per phase. The phases run in the source's order, and `Update` calls them.
- **`GameObject`** has no class of its own. Its `update` is `GameObjects.Advance`, called by each moving entity. Its `collides_with` is `CollidesWith` on `Ship` and `Missile`, the two entities that call it.
- **The `states` dictionary** is two fields, one per key. `ChangeState` reports Python's `KeyError` as an `Outcome` value.

The model keeps one behaviour of the source that may surprise. A new asteroid is placed just past an edge, at a distance of ASTEROID_MAX_SIZE. If it moves less than that in a tick, it does not drift onto the screen: after its first step it is still past the edge, and the teleporting wrap puts it on the opposite edge at once. `Game.SpawnWrapsAcross` states this.

## Model

| member | source | states |
|---|---|---|
| Geometry.Wrap | game_objects.py:23-31 | The wrapped coordinate lies in [0, bound]. It equals the input exactly when the input is in range. Below 0 it is exactly `bound`, above `bound` it is exactly 0: a teleport, not a modulus. |
| Geometry.WrapIdempotent | game_objects.py:23-31 | Wrapping an already wrapped coordinate changes nothing. |
| Geometry.CentredBox | game_objects.py:132-135 | The box has the given half-extent on both sides of the centre. |
| Geometry.Overlaps | game_objects.py:45 | pygame's `colliderect`: the two boxes' open spans overlap on both axes (for boxes of positive size, their interiors intersect). It is the reference for every collision test, and the lemmas below state its properties. |
| Geometry.TouchingDoesNotOverlap | game_objects.py:45 | Boxes that only touch along an edge do not collide. Boxes with no combined width or height never collide. |
| Geometry.OverlapsSymmetric | game_objects.py:41-45 | Box overlap, and so `collides_with`, is symmetric. |
| Geometry.CentredOverlap | game_objects.py:41-45 | Two centred boxes overlap iff, on each axis, their centres are closer than the sum of their half-extents. Touching edges do not collide. |
| Geometry.ContainsPoint | main.py:57 | pygame's `collidepoint` is half-open: a point on the right or bottom edge is outside. The top-left corner is inside exactly when the box is not empty. |
| Randomness.ScaleInt | main.py:142 | `random.randint(lo, hi)` returns a value in [lo, hi]. |
| Randomness.ScaleReal | game_objects.py:157 | `random.uniform(lo, hi)` returns a value between the two bounds, whichever order they are in. |
| Randomness.Rng.constructor | game_objects.py:153-169 | The generator holds the given draw streams and has taken no draws yet. |
| Randomness.Rng.RandInt | main.py:142-154 | One draw: the next raw integer scaled into [lo, hi]. |
| Randomness.Rng.Uniform | game_objects.py:157-161 | One draw: the next unit real scaled into the range. |
| Randomness.Rng.Direction | game_objects.py:160-163 | One draw: the next direction, (cos, sin) of a uniform angle. |
| GameObjects.Advance | game_objects.py:18-31 | The new position is inside [0, SCREEN_WIDTH] x [0, SCREEN_HEIGHT], inclusive, for any prior position and velocity. Each axis is wrapped on its own. |
| GameObjects.Tick | game_objects.py:205-210 | A countdown tick takes exactly one off. The flag stays set iff it was set and something is left. |
| GameObjects.TicksCount | game_objects.py:205-210 | After k ticks, k has been taken off, and the flag is set iff it was set at the start and the count stayed positive. |
| GameObjects.CountdownExpiresAfter | game_objects.py:200-210 | A fresh missile with lifetime L >= 1 is active after k < L updates and inactive from update L on. |
| GameObjects.CountdownNeverReactivates | game_objects.py:232-236 | Nothing ever sets `active` back to true. |
| GameObjects.DragShrinks | game_objects.py:78-80 | Drag strictly shrinks a non-zero velocity component and keeps its sign: positive stays positive and negative stays negative. |
| GameObjects.Ship.constructor | game_objects.py:51-55 | A still ship with its nose up, engines off and size SHIP_SIZE. |
| GameObjects.Ship.Rotate | game_objects.py:57-59 | The angle grows by direction x SHIP_ROTATION_SPEED, and nothing else changes. |
| GameObjects.Ship.Thrust | game_objects.py:61-68 | Thrusting is on, acceleration is SHIP_ACCELERATION, and one acceleration step along the nose is added to the velocity. Only those four fields change. |
| GameObjects.Ship.StopThrust | game_objects.py:70-73 | Thrusting is off and acceleration is 0. The velocity and everything else are unchanged. |
| GameObjects.Ship.Update | game_objects.py:75-82 | Drag scales vx and vy exactly when the ship is not thrusting, and before the position step. The new position is on screen. |
| GameObjects.Ship.Stepped | game_objects.py:75-82 | What one ship update does: drag exactly when not thrusting, then the wrapped step with the new velocity. After a step the ship is on screen, and a thrusting ship's velocity is unchanged. |
| GameObjects.Ship.GetRect | game_objects.py:132-135 | The ship box is size x size, centred on the ship. |
| GameObjects.Ship.CollidesWith | game_objects.py:41-45 | `collides_with` between the ship and an asteroid: it holds iff, on each axis, the centres are closer than half the ship's size plus the asteroid's radius. |
| GameObjects.Ship.FireMissile | game_objects.py:137-145 | A fresh missile `size` ahead of the centre along the nose. Its velocity is the muzzle speed plus the ship's velocity, with a full lifetime. |
| GameObjects.AsteroidDraws | game_objects.py:151-169 | An asteroid takes 11 or 12 random draws, and it takes 12 exactly when no size is given. |
| GameObjects.JitterBounds | game_objects.py:169 | A corner distance is 0.7 to 1.3 times the radius. |
| GameObjects.JaggedOutline | game_objects.py:166-173 | Exactly eight corners. Corner i is at angle i x 45 degrees, with distance radius x the i-th uniform draw in [0.7, 1.3]. |
| GameObjects.Asteroid.constructor | game_objects.py:151-173 | A new asteroid is at the given point with angle 0, active, and eight outline points. A given size is kept; otherwise the size is a `randint` in [MIN, MAX]. Spin, speed and heading come from the next draws in the source's order. |
| GameObjects.Asteroid.Update | game_objects.py:175-178 | The angle grows by the spin before the position step. Velocity, spin and outline do not change. |
| GameObjects.Asteroid.Stepped | game_objects.py:175-178 | What one asteroid update does: the spin is added to the angle, then the wrapped step. After a step the asteroid is on screen. |
| GameObjects.Asteroid.GetRect | game_objects.py:191-194 | The asteroid box is (2 size) x (2 size), centred on it. |
| GameObjects.Missile.constructor | game_objects.py:200-203 | A missile at the given point with the given velocity, active, with lifetime MISSILE_LIFETIME. |
| GameObjects.Missile.Update | game_objects.py:205-210 | The wrapped position step, then the lifetime goes down by exactly one; it is inactive once the lifetime is <= 0. Velocity and size do not change. |
| GameObjects.Missile.Stepped | game_objects.py:205-210 | What one missile update does: the wrapped step, then one `Tick` of the lifetime countdown. |
| GameObjects.Missile.GetRect | game_objects.py:216-219 | The missile box is (2 size) x (2 size), centred on it. |
| GameObjects.Missile.CollidesWith | game_objects.py:41-45 | `collides_with` between a missile and an asteroid: it holds iff, on each axis, the centres are closer than the sum of the two radii. |
| GameObjects.Explosion.constructor | game_objects.py:225-230 | An active explosion with duration EXPLOSION_DURATION at the given point and size. |
| GameObjects.Explosion.Update | game_objects.py:232-236 | The duration goes down by one and the explosion deactivates at <= 0. Position and size never change. |
| GameObjects.ShipHitsAsteroidAtItsCentre | game_objects.py:41-45 | A ship whose centre coincides with an asteroid's collides with it. |
| GameObjects.MissileCollisionSymmetric | game_objects.py:41-45 | `collides_with` gives the same answer whichever of the two objects asks. |
| Lists.RemoveFirst | main.py:203 | `list.remove` shortens the list by exactly one. |
| Lists.RemoveFirstMultiset | main.py:203 | `list.remove(x)` takes exactly one `x` out of the list's elements and leaves the rest. |
| Lists.RemoveFirstAt | main.py:232 | Removing an element whose first occurrence is at k cuts out exactly position k and keeps the order of the rest. |
| Lists.FirstIn | main.py:222-237 | A scan that stops at the first match: no element before it matches. |
| Lists.Select | main.py:199-203 | Filtering never lengthens the list. |
| Lists.Swept | main.py:199-210 | The sweep `for x in s[:]: ... s.remove(x)` as written, visit by visit, with `list.remove` dropping the first equal element. `SweptIsSelect` and `SweptAll` relate it to the filter. |
| Lists.SweptKeepsRest | main.py:199-210 | Every element the sweep has not yet visited is still in the list, with repeats counted. |
| Lists.SweptStillHas | main.py:203 | The element the sweep visits next is still in the list. So the unguarded `remove` calls at main.py:203 and main.py:210 always find their element, even in a list with repeats. |
| Lists.SweptLength | main.py:199-210 | Each visit removes at most one element, so after visiting k elements at most k are gone. |
| Lists.SweptIsSelect | main.py:199-203 | Over a list without repeats, `for x in s[:]: ... s.remove(x)` leaves the visited prefix filtered and the rest as it was. |
| Lists.SweptAll | main.py:199-210 | Once every element is visited, the sweep is exactly the order-preserving filter. |
| Lists.SelectSubMultiset | main.py:199-210 | The sweep only removes: the survivors are a sub-multiset of the list. |
| Lists.SelectOnlyFlagged | main.py:199-210 | Every survivor sits at a kept position. |
| Lists.SelectKeepsFlagged | main.py:199-210 | Every kept element survives. |
| Lists.SelectDistinct | main.py:199-210 | A list without repeats still has no repeats after the sweep. |
| Collisions.Struck | main.py:224 | The asteroids a box overlaps, exactly: each listed asteroid is in the set iff its box overlaps. |
| Collisions.StruckAmong | main.py:222-224 | For asteroids drawn from the pass's list, `missile.collides_with` is membership in the recorded set. |
| Collisions.FirstHit | main.py:240-241 | The position of the first asteroid the ship overlaps: none before it overlaps, and the asteroid there does. |
| Collisions.FirstHitAt | main.py:240-259 | A scan that breaks at the first overlap found it where `FirstHit` says. |
| Collisions.FirstHitNone | main.py:240-241 | A scan that found no overlap agrees with `FirstHit`. |
| Collisions.Strikes | main.py:221-224 | For each missile, the asteroids it overlaps. |
| Collisions.VolleyStep | main.py:222-237 | One missile's turn: it either removes one asteroid and is used up, or keeps everything. The counts balance. |
| Collisions.MissileVolley | main.py:221-237 | After the pass, asteroids left plus destroyed = asteroids before, and missiles kept plus asteroids destroyed = missiles before. |
| Collisions.VolleyNext | main.py:221-237 | The pass over one more missile is one more turn. |
| Collisions.VolleyAccounting | main.py:221-237 | As multisets, asteroids left plus destroyed are the asteroids before, and the kept missiles are drawn from the missiles before. |
| Collisions.VolleyHitsDistinct | main.py:221-237 | No asteroid is destroyed twice. The destroyed ones and the ones left have no repeats and nothing in common. |
| Collisions.VolleyHitsStruck | main.py:221-237 | Every destroyed asteroid was overlapped by some missile. |
| Collisions.VolleyNoStrikes | main.py:221-237 | With no overlaps recorded, every missile survives and nothing is destroyed. |
| Collisions.VolleyMiss | main.py:221-237 | Missiles overlapping no asteroid all survive, and every asteroid stays. |
| Collisions.VolleyDirectHit | main.py:221-237 | One missile over one asteroid: both are gone and the asteroid is the one destroyed. |
| Timers.NextSpawnTimer | main.py:212-218 | The spawn counter stays in [0, ASTEROID_SPAWN_RATE). It is back at 0 exactly on the tick that spawns. |
| Timers.SpawnTimerIsModulo | main.py:212-218 | From 0, the counter after k ticks is k mod ASTEROID_SPAWN_RATE. |
| Timers.SpawnEveryRateTicks | main.py:212-218 | An asteroid is spawned on tick k+1 iff k+1 is a multiple of the rate. |
| Timers.NextTitleTimer | main.py:63-69 | The title timer decrements, and resets to the full duration when it reaches <= 0. It stays in [1, TITLE_SCREEN_DURATION]. |
| Timers.TitleTimerCycles | main.py:63-69 | From a value in range, the title timer counts down cyclically. |
| Timers.TitleTimerPeriod | main.py:63-69 | After TITLE_SCREEN_DURATION ticks the title timer is back where it was. |
| Game.SpacePresses | main.py:159-169 | The count is exactly how many times a space key-down occurs among the events, and so at most the number of events. |
| Game.SpacePressesAppend | main.py:159-169 | Space presses over two batches of events add up. |
| Game.Turn | main.py:176-182 | Left alone turns by -1, right alone by +1, both or neither by 0. |
| Game.SpawnPoint | main.py:142-154 | Side 0 puts y at -MAX; side 1 puts x at W+MAX; side 2 puts y at H+MAX; side 3 puts x at -MAX. The other coordinate is in [0, bound]. |
| Game.SpawnWrapsAcross | main.py:143-154 | An asteroid spawned past an edge, moving less than the offset on the crossing axis, lands on the opposite edge after its first step (game_objects.py:24-31). Its speed along the edge is unconstrained. |
| Game.DrawSpawnPoint | main.py:141-154 | Two draws: a side in [0, 3] and the coordinate along it, placed as `SpawnPoint` says. |
| Game.FadedDropped | main.py:206-210 | The explosions a sweep keeps are all active. |
| Game.SpentDropped | main.py:199-203 | The missiles a sweep keeps are all active. |
| Game.AsteroidsGame.constructor | main.py:316-325 | Score 0, INITIAL_LIVES, a title state with a full timer, a freshly started gameplay state, and the title screen shown first. |
| Game.AsteroidsGame.ChangeState | main.py:327-329 | Only "title" and "gameplay" are keys. For those, `current` becomes the stored state. Any other name is a KeyError and changes nothing. |
| Game.AsteroidsGame.ResetGame | main.py:331-336 | Score 0, INITIAL_LIVES and a brand-new gameplay state. The title state and `current_state` are untouched. |
| Game.TitleRect | main.py:39-48 | The title box is TITLE_WIDTH by TITLE_HEIGHT, centred on the screen to within the floor of `//`. |
| Game.ClickInside | main.py:55-57 | A click needs a mouse-button-down event inside the box. Other events never count, and an empty box is never clicked. |
| Game.TitleScreenState.constructor | main.py:33-48 | The timer starts at TITLE_SCREEN_DURATION and the box is `TitleRect`. |
| Game.TitleScreenState.Update | main.py:63-69 | One tick of `NextTitleTimer`. A timer in [1, TITLE_SCREEN_DURATION] stays there. |
| Game.TitleScreenState.HandleEvents | main.py:50-61 | With a click inside the box: score 0, INITIAL_LIVES, a brand-new gameplay state, and current state = gameplay. Without one, nothing changes. |
| Game.GameplayState.constructor | main.py:121-137 | The ship is still at (W//2, H//2). No missiles, no explosions, timer 0, and exactly ASTEROID_COUNT freshly spawned asteroids. |
| Game.GameplayState.SpawnAsteroid | main.py:139-157 | Appends exactly one fresh asteroid on a spawn edge and leaves the listed ones unchanged, in order. |
| Game.GameplayState.HandleEvents | main.py:159-169 | One missile per space key-down, fired from the ship. The listed missiles stay, in order. |
| Game.GameplayState.SteerShip | main.py:174-189 | Rotation by `Turn`. Thrust along the nose after turning when up is held; otherwise the engines are off and the velocity is kept. |
| Game.GameplayState.MoveShipAndAsteroids | main.py:191-196 | The ship and every listed asteroid take exactly one step each. Only the position and velocity of the ship, and the angle and position of each asteroid, may change. |
| Game.GameplayState.SweepMissiles | main.py:198-203 | Every missile steps once, and only its position, lifetime and flag may change. The list becomes the order-preserving filter of the active ones and keeps no repeats. |
| Game.GameplayState.SweepExplosions | main.py:205-210 | Every explosion ticks once, and only its duration and flag may change, so it never moves. The list becomes the order-preserving filter of the active ones and keeps no repeats. |
| Game.GameplayState.SweepLists | main.py:198-210 | Both sweeps in order. Every missile steps and every explosion ticks once, each list becomes the order-preserving filter of its active objects, with no repeats, and everything still listed is active. |
| Game.GameplayState.Destroy | main.py:224-237 | An explosion is left where the asteroid was. The asteroid is cut out at its position, the missile is removed, and the score goes up by one. |
| Game.GameplayState.MissileHit | main.py:222-237 | One missile's inner loop. It destroys the asteroid at `FirstIn` of those it overlaps, in current list order, or changes nothing. |
| Game.GameplayState.MissileTurn | main.py:221-237 | One outer turn matches `VolleyStep`, including the explosion and score bookkeeping. |
| Game.GameplayState.MissileStep | main.py:221-237 | The turn of missile i takes the pass over i missiles to the pass over i+1. |
| Game.GameplayState.LinkedStep | main.py:221-237 | The same turn leaves the missiles and asteroids themselves alone. So what the pass recorded as struck by each later missile is still what its box overlaps. |
| Game.GameplayState.ResolveMissileHits | main.py:220-237 | The lists end as `MissileVolley` says. Explosions added, in hit order, equal the asteroids destroyed, and so does the score increase. |
| Game.GameplayState.Crash | main.py:241-258 | An explosion where the asteroid was, the asteroid cut out, and one life less. At lives <= 0 the state is "title"; otherwise a fresh ship stands at the centre. |
| Game.GameplayState.ResolveShipHit | main.py:239-259 | Only the first asteroid at `FirstHit` is hit. At most one asteroid is removed, one explosion added and one life lost; with no hit nothing changes. |
| Game.GameplayState.MovePhase | main.py:174-210 | Steering, movement and both sweeps. The asteroid list is unchanged, and every missile and explosion still listed is active. |
| Game.GameplayState.AdvanceSpawnTimer | main.py:212-218 | The counter follows `NextSpawnTimer`. Exactly one asteroid is spawned on the tick it reaches the rate, and none otherwise. |
| Game.GameplayState.MissilePhase | main.py:220-237 | The score grows by at most one per missile, and the lists keep no repeats. |
| Game.GameplayState.ShipPhase | main.py:239-259 | At most one life is lost. A loss at lives <= 0 switches to the title state. |
| Game.GameplayState.Update | main.py:171-259 | The whole tick keeps the lists free of repeats and the spawn counter in range. The score grows by at most one per missile listed at the start. At most one life is lost, and the last one ends the game. |

## Left out

- Drawing: every `draw` method, fonts, the window, the clock and the frame loop in `AsteroidsGame.run`. This is rendering and frame pacing, with no state the game logic reads.
- Trigonometry: the nose direction for the ship's angle is a caller-supplied `Heading` function. An asteroid's direction is a drawn (cos, sin) pair, and its outline corners are kept in polar form (angle index, distance). Sine and cosine of floating-point angles are not modelled.
- Floating point: positions, velocities and drag are Dafny `real`s, without rounding.
- pygame's `Rect` truncates float coordinates to integers. Boxes here keep real bounds.
- Geometry.Overlaps: a box of zero or negative width or height is not given pygame's treatment of empty rects. Here a zero-width or zero-height box still overlaps a box that strictly contains it. This arises only when SHIP_SIZE, MISSILE_SIZE or an asteroid's size is zero or negative.
- `random`: every draw is the next element of a fixed but arbitrary stream, handed to `Rng` at construction. The model states which draw feeds which field, not the distribution.
- Input: `pygame.event.get()` is a sequence of `Event` values. `pygame.key.get_pressed()` is a `HeldKeys` snapshot of the three arrow keys.
- The `GameState` base class has no members of its own to model. The `ship.active` flag is never read by the game.
- `config.py` is not part of this model. Its constants are symbolic, and the model assumes only these ranges of them:
  - screen width and height, spawn rate and title duration are at least 1;
  - the drag lies strictly between 0 and 1;
  - the minimum asteroid radius is at most the maximum, as `random.randint` requires;
  - ASTEROID_COUNT is at least 0. Python's `range` of a negative count is empty, and that case is not modelled.
- Game.GameplayState.Update: states bounds on the score and lives and the invariants the tick keeps, not the exact new lists. The exact effect of each phase is stated by the phase methods it calls.
- Game.GameplayState.MovePhase: states only what the later phases need. The exact per-object steps are stated by `SteerShip`, `MoveShipAndAsteroids`, `SweepMissiles` and `SweepExplosions`.
- Game.GameplayState.MissilePhase: states only the score bound. The exact lists are stated by `ResolveMissileHits`.
- Game.GameplayState.ShipPhase: states only the lives and game-over account. The exact lists are stated by `ResolveShipHit`.
- Lists.RemoveFirst: requires the element to be present, and the ValueError Python raises otherwise is not modelled. The removals at main.py:229-232 and main.py:246-247 are guarded by a membership test. The two sweep removals at main.py:203 and main.py:210 are not guarded; `Lists.SweptStillHas` proves their element is still in the list.
