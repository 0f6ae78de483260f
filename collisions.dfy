/** What the two collision passes of a gameplay tick compute, stated over
    the lists they scan. Both passes take the first colliding asteroid in
    list order, not the nearest one. Nothing moves while a pass runs, so
    which missile overlaps which asteroid is settled when the pass starts;
    the missile pass is stated over that record (`Strikes`) and the lists
    alone. */
module Collisions {
  import opened Geometry
  import opened Lists
  import opened GameObjects

  /** The asteroids of `targets` whose box overlaps `box`. */
  ghost function Struck(box: Rect, targets: seq<Asteroid>): (hit: set<Asteroid>)
    reads targets
    ensures forall j {:trigger targets[j] in hit} :: 0 <= j < |targets| ==>
      (targets[j] in hit <==> Overlaps(box, targets[j].GetRect()))
    ensures forall a :: a in hit ==> a in targets
    decreases |targets|
  {
    if targets == [] then {}
    else
      var n := |targets| - 1;
      var rest := Struck(box, targets[..n]);
      assert forall j :: 0 <= j < n ==> targets[..n][j] == targets[j];
      if Overlaps(box, targets[n].GetRect()) then rest + {targets[n]} else rest
  }

  /** For asteroids drawn from `targets`, a missile collides with one
      exactly when it is among those the missile's box struck. */
  lemma StruckAmong(m: Missile, targets: seq<Asteroid>, left: seq<Asteroid>)
    requires forall t :: 0 <= t < |left| ==> left[t] in targets
    ensures forall t :: 0 <= t < |left| ==> (m.CollidesWith(left[t]) <==> left[t] in Struck(m.GetRect(), targets))
  {
    forall t | 0 <= t < |left| ensures m.CollidesWith(left[t]) <==> left[t] in Struck(m.GetRect(), targets) {
      assert left[t] in targets;
      var j :| 0 <= j < |targets| && targets[j] == left[t];
    }
  }

  /** The position of the first asteroid whose box overlaps `box`, or the
      length of the list when none does. */
  ghost function FirstHit(box: Rect, targets: seq<Asteroid>): (k: nat)
    reads targets
    ensures k <= |targets|
    ensures k < |targets| ==> Overlaps(box, targets[k].GetRect())
    ensures forall j :: 0 <= j < k ==> !Overlaps(box, targets[j].GetRect())
  {
    var k := FirstIn(targets, Struck(box, targets));
    assert k < |targets| ==> targets[k] in Struck(box, targets);
    assert forall j :: 0 <= j < k ==> targets[j] !in Struck(box, targets);
    k
  }

  /** A scan that found its first overlap at `j` agrees with `FirstHit`. */
  lemma FirstHitAt(box: Rect, targets: seq<Asteroid>, j: nat)
    requires j < |targets| && Overlaps(box, targets[j].GetRect())
    requires forall t :: 0 <= t < j ==> !Overlaps(box, targets[t].GetRect())
    ensures FirstHit(box, targets) == j
  {
    FirstInAt(targets, Struck(box, targets), j);
  }

  /** A scan that found no overlap agrees with `FirstHit`. */
  lemma FirstHitNone(box: Rect, targets: seq<Asteroid>)
    requires forall t :: 0 <= t < |targets| ==> !Overlaps(box, targets[t].GetRect())
    ensures FirstHit(box, targets) == |targets|
  {
    FirstInNone(targets, Struck(box, targets));
  }

  /** For each missile of `ms`, the asteroids of `targets` it overlaps. */
  ghost function Strikes(ms: seq<Missile>, targets: seq<Asteroid>): (s: map<Missile, set<Asteroid>>)
    reads ms, targets
    ensures forall i :: 0 <= i < |ms| ==> ms[i] in s && s[ms[i]] == Struck(ms[i].GetRect(), targets)
    decreases |ms|
  {
    if ms == [] then map[]
    else
      var n := |ms| - 1;
      var rest := Strikes(ms[..n], targets);
      assert forall i :: 0 <= i < n ==> ms[..n][i] == ms[i];
      rest[ms[n] := Struck(ms[n].GetRect(), targets)]
  }

  /** What `strikes` records for missile `m`; nothing when `m` is not in it. */
  function StruckBy(strikes: map<Missile, set<Asteroid>>, m: Missile): set<Asteroid>
  {
    if m in strikes then strikes[m] else {}
  }

  /** What `strikes` records for the missiles of `all` from position `i`
      on is still what their boxes overlap among `targets`. */
  ghost predicate StruckLinked(all: seq<Missile>, i: nat, targets: seq<Asteroid>,
                               strikes: map<Missile, set<Asteroid>>)
    reads all, targets
  {
    forall j {:trigger StruckBy(strikes, all[j])} :: i <= j < |all| ==>
      StruckBy(strikes, all[j]) == Struck(all[j].GetRect(), targets)
  }

  /** The outcome of the missile pass: the missiles that hit nothing, in
      their order; the asteroids left, in their order; and the asteroids
      destroyed, in the order they were hit. */
  datatype Volley = Volley(kept: seq<Missile>, left: seq<Asteroid>, hit: seq<Asteroid>)

  /** One missile's turn in the pass: it destroys the first asteroid it
      overlaps among those left, and is used up; otherwise it is kept. */
  function VolleyStep(v: Volley, m: Missile, strikes: map<Missile, set<Asteroid>>): (r: Volley)
    ensures |r.left| + |r.hit| == |v.left| + |v.hit|
    ensures |r.kept| + |r.hit| == |v.kept| + |v.hit| + 1
    ensures forall i :: 0 <= i < |r.left| ==> r.left[i] in v.left
  {
    var k := FirstIn(v.left, StruckBy(strikes, m));
    if k < |v.left| then
      Volley(v.kept, v.left[..k] + v.left[k + 1..], v.hit + [v.left[k]])
    else
      Volley(v.kept + [m], v.left, v.hit)
  }

  /** The missile pass over missiles `ms`, in their order. Every missile
      used up destroys exactly one asteroid, and the asteroids left come
      from the list. */
  function MissileVolley(ms: seq<Missile>, targets: seq<Asteroid>, strikes: map<Missile, set<Asteroid>>): (v: Volley)
    ensures |v.left| + |v.hit| == |targets|
    ensures |v.kept| + |v.hit| == |ms|
    ensures forall i :: 0 <= i < |v.left| ==> v.left[i] in targets
    decreases |ms|
  {
    if ms == [] then Volley([], targets, [])
    else
      var n := |ms| - 1;
      VolleyStep(MissileVolley(ms[..n], targets, strikes), ms[n], strikes)
  }

  /** The pass over one more missile is one more step. */
  lemma VolleyNext(ms: seq<Missile>, targets: seq<Asteroid>, strikes: map<Missile, set<Asteroid>>, i: nat)
    requires i < |ms|
    ensures MissileVolley(ms[..i + 1], targets, strikes)
      == VolleyStep(MissileVolley(ms[..i], targets, strikes), ms[i], strikes)
  {
    assert ms[..i + 1][..i] == ms[..i];
  }

  /** The pass only moves asteroids from the list to the destroyed ones,
      and only keeps missiles it was given. */
  lemma {:induction false} VolleyAccounting(ms: seq<Missile>, targets: seq<Asteroid>, strikes: map<Missile, set<Asteroid>>)
    ensures var v := MissileVolley(ms, targets, strikes);
      && multiset(v.left) + multiset(v.hit) == multiset(targets)
      && multiset(v.kept) <= multiset(ms)
  {
    if ms != [] {
      var n := |ms| - 1;
      VolleyAccounting(ms[..n], targets, strikes);
      var v := MissileVolley(ms[..n], targets, strikes);
      var v' := MissileVolley(ms, targets, strikes);
      assert v' == VolleyStep(v, ms[n], strikes);
      assert multiset(ms) == multiset(ms[..n]) + multiset{ms[n]} by {
        assert ms == ms[..n] + [ms[n]];
      }
      var k := FirstIn(v.left, StruckBy(strikes, ms[n]));
      if k < |v.left| {
        MoveMultiset(v.hit, v.left, k);
        assert v' == Volley(v.kept, v.left[..k] + v.left[k + 1..], v.hit + [v.left[k]]);
      } else {
        assert v' == Volley(v.kept + [ms[n]], v.left, v.hit);
        assert multiset(v'.kept) == multiset(v.kept) + multiset{ms[n]};
      }
    }
  }

  /** One turn keeps the destroyed asteroids and those left free of
      repeats and apart from each other. */
  lemma StepHitsDistinct(v: Volley, m: Missile, strikes: map<Missile, set<Asteroid>>)
    requires Distinct(v.hit) && Distinct(v.left)
    requires forall i, j :: 0 <= i < |v.hit| && 0 <= j < |v.left| ==> v.hit[i] != v.left[j]
    ensures var r := VolleyStep(v, m, strikes);
      && Distinct(r.hit) && Distinct(r.left)
      && forall i, j :: 0 <= i < |r.hit| && 0 <= j < |r.left| ==> r.hit[i] != r.left[j]
  {
    var k := FirstIn(v.left, StruckBy(strikes, m));
    if k < |v.left| {
      MoveDistinct(v.hit, v.left, k);
    }
  }

  /** No asteroid is destroyed twice: over a list of distinct asteroids the
      destroyed ones are distinct, the ones left are distinct, and no
      asteroid is both. */
  lemma {:induction false} VolleyHitsDistinct(ms: seq<Missile>, targets: seq<Asteroid>, strikes: map<Missile, set<Asteroid>>)
    requires Distinct(targets)
    ensures var v := MissileVolley(ms, targets, strikes);
      && Distinct(v.hit) && Distinct(v.left)
      && forall i, j :: 0 <= i < |v.hit| && 0 <= j < |v.left| ==> v.hit[i] != v.left[j]
  {
    if ms != [] {
      var n := |ms| - 1;
      VolleyHitsDistinct(ms[..n], targets, strikes);
      StepHitsDistinct(MissileVolley(ms[..n], targets, strikes), ms[n], strikes);
    }
  }

  /** Every asteroid the pass destroys was recorded as struck by one of the
      missiles. */
  lemma {:induction false} VolleyHitsStruck(ms: seq<Missile>, targets: seq<Asteroid>, strikes: map<Missile, set<Asteroid>>)
    ensures forall a :: a in MissileVolley(ms, targets, strikes).hit ==>
      exists i :: 0 <= i < |ms| && a in StruckBy(strikes, ms[i])
  {
    if ms != [] {
      var n := |ms| - 1;
      VolleyHitsStruck(ms[..n], targets, strikes);
      var v := MissileVolley(ms[..n], targets, strikes);
      var v' := MissileVolley(ms, targets, strikes);
      assert v' == VolleyStep(v, ms[n], strikes);
      forall a | a in v'.hit ensures exists i :: 0 <= i < |ms| && a in StruckBy(strikes, ms[i]) {
        if a in v.hit {
          var i :| 0 <= i < |ms[..n]| && a in StruckBy(strikes, ms[..n][i]);
          assert ms[..n][i] == ms[i];
        } else {
          assert a in StruckBy(strikes, ms[n]);
        }
      }
    }
  }

  /** When no missile is recorded as striking any asteroid, every missile
      survives and nothing is destroyed. */
  lemma {:induction false} VolleyNoStrikes(ms: seq<Missile>, targets: seq<Asteroid>, strikes: map<Missile, set<Asteroid>>)
    requires forall i, a :: 0 <= i < |ms| && a in targets ==> a !in StruckBy(strikes, ms[i])
    ensures MissileVolley(ms, targets, strikes) == Volley(ms, targets, [])
  {
    if ms != [] {
      var n := |ms| - 1;
      VolleyNoStrikes(ms[..n], targets, strikes);
      var k := FirstIn(targets, StruckBy(strikes, ms[n]));
      assert k == |targets|;
      assert ms[..n] + [ms[n]] == ms;
    }
  }

  /** Missiles overlapping no asteroid all survive the pass and destroy
      nothing. */
  lemma VolleyMiss(ms: seq<Missile>, targets: seq<Asteroid>)
    requires forall i, j :: 0 <= i < |ms| && 0 <= j < |targets| ==> !ms[i].CollidesWith(targets[j])
    ensures MissileVolley(ms, targets, Strikes(ms, targets)) == Volley(ms, targets, [])
  {
    var strikes := Strikes(ms, targets);
    forall i, a | 0 <= i < |ms| && a in targets ensures a !in StruckBy(strikes, ms[i]) {
      var j :| 0 <= j < |targets| && targets[j] == a;
      assert !ms[i].CollidesWith(targets[j]);
    }
    VolleyNoStrikes(ms, targets, strikes);
  }

  /** A single missile overlapping a single asteroid: both are gone and the
      asteroid is the one destroyed. */
  lemma VolleyDirectHit(m: Missile, a: Asteroid)
    requires m.CollidesWith(a)
    ensures MissileVolley([m], [a], Strikes([m], [a])) == Volley([], [], [a])
  {
    assert [m][..0] == [];
    assert a in Struck(m.GetRect(), [a]);
  }
}
