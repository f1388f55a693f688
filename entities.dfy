/**
 The game entities as values: projectiles and asteroids, each carrying a
 set-once expired flag (a tombstone) that the store's sweep acts on.
 Asteroids are uniquely owned and projectiles live in a value-semantic box,
 so no entity is ever shared; the store holds them by value and refers to
 them by index.
 */
module GameEntities {
  import opened Geometry

  /** The part of an entity that is drawn: where it is and which way it points (in degrees). */
  datatype Shape = Shape(position: Vec2, rotation: real)

  datatype Projectile = Projectile(shape: Shape, expired: bool)

  /**
   An asteroid at `position` heading along the angle `heading` (in whole
   degrees) with size tier `tier`; tier 1 is the smallest.
   */
  datatype Asteroid = Asteroid(position: Vec2, heading: int, tier: int, expired: bool)

  /** A tombstone never goes from set to clear. */
  predicate NeverCleared(before: bool, after: bool) {
    before ==> after
  }

  predicate ProjectileExpired(p: Projectile) {
    p.expired
  }

  predicate AsteroidExpired(a: Asteroid) {
    a.expired
  }

  /** A freshly constructed projectile at `position` facing `rotation`; its flag starts clear. */
  function NewProjectile(position: Vec2, rotation: real): (p: Projectile)
    ensures !p.expired && p.shape.position == position && p.shape.rotation == rotation
  {
    Projectile(Shape(position, rotation), false)
  }

  /**
   Projectile copy-assignment: the shape is copied from `other`, and the
   flag is set if `other`'s is, but an already set flag is never cleared.
   */
  function Assign(self: Projectile, other: Projectile): (r: Projectile)
    ensures r.shape == other.shape
    ensures r.expired <==> self.expired || other.expired
    ensures NeverCleared(self.expired, r.expired)
  {
    Projectile(other.shape, if other.expired then true else self.expired)
  }

  /** Assigning a projectile to itself changes nothing. */
  lemma AssignSelf(p: Projectile)
    ensures Assign(p, p) == p
  {
  }

  /** What a collision does to an asteroid: the asteroid as it is left, and the children it stages. */
  datatype CollisionOutcome = CollisionOutcome(struck: Asteroid, staged: seq<Asteroid>)

  /**
   The split/terminate rule. A tier-1 asteroid is only marked expired. Any
   other tier stages two children one tier smaller at the same position,
   the first heading along `phase` and the second along `phase - 180`
   degrees, and then marks itself expired. `phase` stands for the random
   angle drawn from the shared generator.
   */
  function OnCollision(a: Asteroid, phase: int): (o: CollisionOutcome)
    ensures o.struck.expired
    ensures o.struck.position == a.position && o.struck.heading == a.heading && o.struck.tier == a.tier
    ensures a.tier == 1 <==> o.staged == []
    ensures a.tier != 1 ==> |o.staged| == 2 && o.staged[0].heading == phase && o.staged[1].heading == phase - 180
    ensures forall c :: c in o.staged ==> c.position == a.position && c.tier == a.tier - 1 && !c.expired
  {
    if a.tier == 1 then
      CollisionOutcome(a.(expired := true), [])
    else
      var first := Asteroid(a.position, phase, a.tier - 1, false);
      var second := Asteroid(a.position, phase - 180, a.tier - 1, false);
      CollisionOutcome(a.(expired := true), [first, second])
  }

  /** Two children of one split head in exactly opposite directions. */
  lemma ChildrenOpposite(a: Asteroid, phase: int)
    requires a.tier != 1
    ensures var o := OnCollision(a, phase); o.staged[0].heading - o.staged[1].heading == 180
  {
  }

  /** Splitting keeps tiers positive and strictly decreasing, so it cannot go on forever. */
  lemma ChildrenSmaller(a: Asteroid, phase: int)
    requires a.tier >= 1
    ensures forall c :: c in OnCollision(a, phase).staged ==> 1 <= c.tier < a.tier
  {
  }

  /**
   Re-striking is not guarded: an asteroid already marked expired but not
   yet swept is split again by a second collision, staging two more
   children.
   */
  lemma StruckSplitsAgain(a: Asteroid, phase: int, phase2: int)
    requires a.tier != 1
    ensures var once := OnCollision(a, phase);
      |OnCollision(once.struck, phase2).staged| == 2
  {
  }

  /**
   The number of asteroids in the split tree of a tier-`tier` asteroid: the
   asteroid itself and, for tier > 1, the split trees of its two children.
   It is the number of hits that clears the asteroid and all its fragments
   when each of them is hit exactly once and none leaves the screen.
   */
  function SplitTreeSize(tier: nat): (n: nat)
    requires tier >= 1
    decreases tier
  {
    if tier == 1 then 1 else 1 + 2 * SplitTreeSize(tier - 1)
  }

  function Pow2(n: nat): (p: nat)
    ensures p >= 1
  {
    if n == 0 then 1 else 2 * Pow2(n - 1)
  }

  /** The split tree of a tier-n asteroid has 2^n - 1 asteroids; that of a tier-3 asteroid has seven. */
  lemma {:induction false} SplitTreeSizeIsPow2(tier: nat)
    requires tier >= 1
    ensures SplitTreeSize(tier) == Pow2(tier) - 1
  {
    if tier > 1 {
      SplitTreeSizeIsPow2(tier - 1);
    }
  }

  /** The tree size follows the split rule itself: the asteroid plus the trees of the two children it stages. */
  lemma SplitTreeSizeFollowsSplit(a: Asteroid, phase: int)
    requires a.tier > 1
    ensures var o := OnCollision(a, phase);
      SplitTreeSize(a.tier) == 1 + SplitTreeSize(o.staged[0].tier) + SplitTreeSize(o.staged[1].tier)
  {
  }
}
