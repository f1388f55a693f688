/**
 The game store: the live general entities (here projectiles, the only kind
 the store adds to that list), the live asteroids, and the FIFO queue of
 staged asteroids waiting for the next tick. Producers only ever append to
 the staging queue or the entity list; the consumer drains the queue into
 the live asteroids, iterates, and sweeps expired entries.
 */
module GameData {
  import opened Containers
  import opened Geometry
  import opened GameEntities

  /** The asteroids staged by hitting, in order, those asteroids of `live` whose hit flag is set. */
  function StagedBy(live: seq<Asteroid>, hits: seq<bool>, phases: seq<int>): (r: seq<Asteroid>)
    requires |hits| == |live| && |phases| == |live|
    ensures forall c :: c in r ==> !c.expired
    decreases |live|
  {
    if live == [] then []
    else
      var n := |live| - 1;
      StagedBy(live[..n], hits[..n], phases[..n])
        + (if hits[n] then OnCollision(live[n], phases[n]).staged else [])
  }

  /** How many of the hit asteroids are larger than tier 1, that is, how many hits split. */
  function SplitCount(live: seq<Asteroid>, hits: seq<bool>): (n: nat)
    requires |hits| == |live|
    decreases |live|
  {
    if live == [] then 0
    else
      var n := |live| - 1;
      SplitCount(live[..n], hits[..n]) + (if hits[n] && live[n].tier != 1 then 1 else 0)
  }

  /** Every split stages exactly two asteroids and every tier-1 hit stages none. */
  lemma {:induction false} StagedByLength(live: seq<Asteroid>, hits: seq<bool>, phases: seq<int>)
    requires |hits| == |live| && |phases| == |live|
    ensures |StagedBy(live, hits, phases)| == 2 * SplitCount(live, hits)
    decreases |live|
  {
    if live != [] {
      var n := |live| - 1;
      StagedByLength(live[..n], hits[..n], phases[..n]);
    }
  }

  /** Nothing is staged when nothing is hit. */
  lemma {:induction false} StagedByNoHits(live: seq<Asteroid>, hits: seq<bool>, phases: seq<int>)
    requires |hits| == |live| && |phases| == |live|
    requires forall i :: 0 <= i < |hits| ==> !hits[i]
    ensures StagedBy(live, hits, phases) == []
    decreases |live|
  {
    if live != [] {
      var n := |live| - 1;
      StagedByNoHits(live[..n], hits[..n], phases[..n]);
    }
  }

  /** Extending the iterated prefix by one asteroid adds that asteroid's children, if it was hit. */
  lemma StagedByStep(live: seq<Asteroid>, hits: seq<bool>, phases: seq<int>, i: nat)
    requires |hits| == |live| && |phases| == |live| && i < |live|
    ensures StagedBy(live[..i + 1], hits[..i + 1], phases[..i + 1])
      == StagedBy(live[..i], hits[..i], phases[..i]) + (if hits[i] then OnCollision(live[i], phases[i]).staged else [])
  {
    assert live[..i + 1][..i] == live[..i];
    assert hits[..i + 1][..i] == hits[..i];
    assert phases[..i + 1][..i] == phases[..i];
  }

  /** The live asteroids after a projectile has hit those whose flag is set: those are marked expired, nothing else changes. */
  function MarkHit(live: seq<Asteroid>, hits: seq<bool>, upto: nat): (r: seq<Asteroid>)
    requires |hits| == |live| && upto <= |live|
    ensures |r| == |live|
  {
    seq(|live|, k requires 0 <= k < |live| => if k < upto && hits[k] then live[k].(expired := true) else live[k])
  }

  /**
   Exactly the hit asteroids among the first `upto` end expired, besides those
   already expired; every asteroid keeps its position, heading and tier.
   */
  lemma MarkHitFlagsExactlyHits(live: seq<Asteroid>, hits: seq<bool>, upto: nat)
    requires |hits| == |live| && upto <= |live|
    ensures forall k :: 0 <= k < |live| ==>
      var a := MarkHit(live, hits, upto)[k];
      && (a.expired <==> live[k].expired || (k < upto && hits[k]))
      && a.position == live[k].position && a.heading == live[k].heading && a.tier == live[k].tier
  {
  }

  /** Flagging hit asteroids never clears a tombstone. */
  lemma MarkHitNeverClears(live: seq<Asteroid>, hits: seq<bool>, upto: nat)
    requires |hits| == |live| && upto <= |live|
    ensures forall k :: 0 <= k < |live| ==> NeverCleared(live[k].expired, MarkHit(live, hits, upto)[k].expired)
  {
  }

  predicate AnyHit(hits: seq<bool>) {
    exists k :: 0 <= k < |hits| && hits[k]
  }

  lemma AnyHitStep(hits: seq<bool>, i: nat)
    requires i < |hits|
    ensures AnyHit(hits[..i + 1]) <==> AnyHit(hits[..i]) || hits[i]
  {
  }

  class Data {
    var entities: seq<Projectile>
    var asteroids: seq<Asteroid>
    var incoming: seq<Asteroid>

    constructor ()
      ensures entities == [] && asteroids == [] && incoming == []
    {
      entities, asteroids, incoming := [], [], [];
    }

    /** The number of live entities; staged asteroids are not counted until a tick drains them. */
    function NumEntities(): (n: nat)
      reads this
      ensures n == |entities| + |asteroids|
    {
      |entities| + |asteroids|
    }

    /** Appends a new projectile to the live entity list. */
    method AddProjectile(position: Vec2, rotation: real)
      modifies this
      ensures entities == old(entities) + [NewProjectile(position, rotation)]
      ensures asteroids == old(asteroids) && incoming == old(incoming)
      ensures NumEntities() == old(NumEntities()) + 1
    {
      entities := entities + [NewProjectile(position, rotation)];
    }

    /** Stages an asteroid: it goes to the back of the incoming queue, not yet live. */
    method AddAsteroid(a: Asteroid)
      modifies this
      ensures incoming == old(incoming) + [a]
      ensures entities == old(entities) && asteroids == old(asteroids)
      ensures NumEntities() == old(NumEntities())
    {
      incoming := incoming + [a];
    }

    /** Drains the staging queue: every staged asteroid becomes live once, in FIFO order, and the queue is left empty. */
    method Tick()
      modifies this
      ensures asteroids == old(asteroids) + old(incoming)
      ensures incoming == []
      ensures entities == old(entities)
      ensures NumEntities() == old(NumEntities()) + |old(incoming)|
    {
      var popped := TryPop(incoming);
      while popped.Some?
        invariant popped == TryPop(incoming)
        invariant asteroids + incoming == old(asteroids) + old(incoming)
        invariant entities == old(entities)
        decreases |incoming|
      {
        var (front, rest) := popped.value;
        asteroids := asteroids + [front];
        incoming := rest;
        popped := TryPop(incoming);
      }
    }

    /**
     The sweep: erases every expired entity from both live lists and keeps
     every other one, in order, so the entity count drops by exactly the
     number of expired entries.
     */
    method KillExpired()
      modifies this
      ensures entities == EraseIf(old(entities), ProjectileExpired)
      ensures asteroids == EraseIf(old(asteroids), AsteroidExpired)
      ensures incoming == old(incoming)
      ensures NumEntities() == old(NumEntities())
        - CountIf(old(entities), ProjectileExpired) - CountIf(old(asteroids), AsteroidExpired)
    {
      EraseIfLength(entities, ProjectileExpired);
      EraseIfLength(asteroids, AsteroidExpired);
      entities := EraseIf(entities, ProjectileExpired);
      asteroids := EraseIf(asteroids, AsteroidExpired);
    }

    /**
     A collision of the live asteroid at index `i`: its children (if any)
     are staged in order, and then it is marked expired in place.
     */
    method CollideAsteroid(i: nat, phase: int)
      requires i < |asteroids|
      modifies this
      ensures asteroids == old(asteroids)[i := OnCollision(old(asteroids[i]), phase).struck]
      ensures incoming == old(incoming) + OnCollision(old(asteroids[i]), phase).staged
      ensures entities == old(entities)
    {
      var outcome := OnCollision(asteroids[i], phase);
      if asteroids[i].tier != 1 {
        AddAsteroid(outcome.staged[0]);
        AddAsteroid(outcome.staged[1]);
        assert outcome.staged == [outcome.staged[0], outcome.staged[1]];
      }
      asteroids := asteroids[i := outcome.struck];
    }

    /**
     The asteroid sweep inside a projectile's tick: every live asteroid the
     projectile hits (`hits[k]`) goes through its collision step with
     phase `phases[k]`. The live list is only flagged, never grown or
     shrunk, while it is iterated: children go to the staging queue.
     `struck` tells whether the projectile hit anything. The iteration
     helper `for_all_asteroids` is not part of this model; it is taken to
     visit every live asteroid once, in list order, expired ones included.
     */
    method CollideAll(hits: seq<bool>, phases: seq<int>) returns (struck: bool)
      requires |hits| == |asteroids| && |phases| == |asteroids|
      modifies this
      ensures asteroids == MarkHit(old(asteroids), hits, |hits|)
      ensures incoming == old(incoming) + StagedBy(old(asteroids), hits, phases)
      ensures entities == old(entities)
      ensures struck == AnyHit(hits)
    {
      struck := false;
      var i := 0;
      while i < |asteroids|
        invariant 0 <= i <= |hits| == |asteroids| == |phases| == |old(asteroids)|
        invariant asteroids == MarkHit(old(asteroids), hits, i)
        invariant incoming == old(incoming) + StagedBy(old(asteroids)[..i], hits[..i], phases[..i])
        invariant entities == old(entities)
        invariant struck == AnyHit(hits[..i])
      {
        StagedByStep(old(asteroids), hits, phases, i);
        AnyHitStep(hits, i);
        if hits[i] {
          CollideAsteroid(i, phases[i]);
          struck := true;
        }
        i := i + 1;
      }
      assert old(asteroids)[..i] == old(asteroids) && hits[..i] == hits && phases[..i] == phases;
    }

    /**
     One tick of the projectile at index `j`. It moves by `offset`; if it
     has then left the window it is marked expired and nothing else
     happens. Otherwise it collides with every asteroid it hits, and is
     marked expired if it hit any.
     */
    method TickProjectile(j: nat, offset: Vec2, radius: real, wdw: WindowSize, hits: seq<bool>, phases: seq<int>)
      requires j < |entities|
      requires |hits| == |asteroids| && |phases| == |asteroids|
      modifies this
      ensures var moved := Add(old(entities[j]).shape.position, offset);
        var inside := ShapeWithinBounds(moved, radius, wdw);
        && entities == old(entities)[j := Projectile(old(entities[j]).shape.(position := moved),
                                                     old(entities[j]).expired || !inside || AnyHit(hits))]
        && asteroids == (if inside then MarkHit(old(asteroids), hits, |hits|) else old(asteroids))
        && incoming == old(incoming) + (if inside then StagedBy(old(asteroids), hits, phases) else [])
      ensures NeverCleared(old(entities[j]).expired, entities[j].expired)
    {
      var moved := Add(entities[j].shape.position, offset);
      entities := entities[j := entities[j].(shape := entities[j].shape.(position := moved))];
      if !ShapeWithinBounds(moved, radius, wdw) {
        entities := entities[j := entities[j].(expired := true)];
        return;
      }
      var struck := CollideAll(hits, phases);
      if struck {
        entities := entities[j := entities[j].(expired := true)];
      }
    }
  }

  /**
   Staging followed by a sweep but no tick leaves a new asteroid invisible
   to the live list; one drain then makes it live exactly once.
   */
  method StagedBecomesLiveAfterOneTick(a: Asteroid) returns (liveBefore: seq<Asteroid>, liveAfter: seq<Asteroid>)
    ensures liveBefore == [] && liveAfter == [a]
  {
    var dat := new Data();
    dat.AddAsteroid(a);
    dat.KillExpired();
    liveBefore := dat.asteroids;
    dat.Tick();
    liveAfter := dat.asteroids;
  }

  /** Staging any number of asteroids one after another and draining once makes all of them live, in order, none lost or duplicated. */
  method StageAllThenDrain(staged: seq<Asteroid>) returns (live: seq<Asteroid>)
    ensures live == staged
  {
    var dat := new Data();
    for k := 0 to |staged|
      invariant dat.incoming == staged[..k] && dat.asteroids == []
    {
      dat.AddAsteroid(staged[k]);
      assert staged[..k + 1] == staged[..k] + [staged[k]];
    }
    assert staged[..|staged|] == staged;
    dat.Tick();
    live := dat.asteroids;
  }

  /**
   A second collision with an asteroid struck earlier in the same frame,
   before the sweep, splits it again: a tier-2 asteroid hit twice stages
   four children.
   */
  method StruckTwiceBeforeSweep(a: Asteroid, phase: int) returns (staged: nat)
    requires a.tier == 2
    ensures staged == 4
  {
    var dat := new Data();
    dat.AddAsteroid(a);
    dat.Tick();
    dat.CollideAsteroid(0, phase);
    dat.CollideAsteroid(0, phase);
    staged := |dat.incoming|;
  }
}
