/**
 The player ship's input side: an 8-bit movement mask that the input
 thread sets and clears bit by bit, the decisions its tick takes from a
 snapshot of that mask, and the shot cooldown. The velocity, acceleration
 and rotation physics behind those decisions are not modelled.
 */
module GamePlayer {
  import opened Geometry
  import opened GameEntities
  import opened GameData

  /** The movement intents, one bit each in the player's mask. */
  datatype MoveState = Forward | Backward | Left | Right | Shoot

  function Bit(s: MoveState): (b: bv8)
    ensures b != 0 && b & (b - 1) == 0
  {
    match s
    case Forward => 1
    case Backward => 2
    case Left => 4
    case Right => 8
    case Shoot => 16
  }

  /** Distinct intents occupy distinct bits. */
  lemma BitsDisjoint(s: MoveState, t: MoveState)
    requires s != t
    ensures Bit(s) & Bit(t) == 0
  {
  }

  predicate Holds(mask: bv8, s: MoveState) {
    mask & Bit(s) != 0
  }

  /** OR the bits of `b` into the mask: those bits end set and every other bit keeps its value. */
  function SetBits(mask: bv8, b: bv8): (r: bv8)
    ensures r & b == b
    ensures r & !b == mask & !b
  {
    mask | b
  }

  /** AND the complement of `b` into the mask: those bits end clear and every other bit keeps its value. */
  function ClearBits(mask: bv8, b: bv8): (r: bv8)
    ensures r & b == 0
    ensures r & !b == mask & !b
  {
    mask & !b
  }

  /** Setting an intent raises it and leaves every other intent as it was. */
  lemma SetIntent(mask: bv8, s: MoveState, t: MoveState)
    ensures Holds(SetBits(mask, Bit(s)), s)
    ensures s != t ==> (Holds(SetBits(mask, Bit(s)), t) <==> Holds(mask, t))
  {
  }

  /** Clearing an intent lowers it and leaves every other intent as it was. */
  lemma ClearIntent(mask: bv8, s: MoveState, t: MoveState)
    ensures !Holds(ClearBits(mask, Bit(s)), s)
    ensures s != t ==> (Holds(ClearBits(mask, Bit(s)), t) <==> Holds(mask, t))
  {
  }

  /** Both operations are idempotent, and a clear undoes a set of a bit that was clear. */
  lemma SetClearIdempotent(mask: bv8, b: bv8)
    ensures SetBits(SetBits(mask, b), b) == SetBits(mask, b)
    ensures ClearBits(ClearBits(mask, b), b) == ClearBits(mask, b)
    ensures mask & b == 0 ==> ClearBits(SetBits(mask, b), b) == mask
  {
  }

  /** What a tick does with the thrust. */
  datatype Thrust = Accelerate | Reverse | Dampen | Coast

  /** What a tick does with the heading. */
  datatype Turn = TurnLeft | TurnRight | Straight

  datatype TickPlan = TickPlan(thrust: Thrust, turn: Turn, shoot: bool)

  /**
   The decisions of one player tick from a mask snapshot. Forward wins over
   backward, and either one only applies below 95% of the maximum speed;
   otherwise a moving ship is damped. Left wins over right. A shot is
   attempted exactly when the shoot bit is set.
   */
  function Plan(mask: bv8, underMaxSpeed: bool, moving: bool): (p: TickPlan)
    ensures p.thrust == Accelerate <==> Holds(mask, Forward) && underMaxSpeed
    ensures p.thrust == Reverse <==> Holds(mask, Backward) && !Holds(mask, Forward) && underMaxSpeed
    ensures p.thrust == Dampen <==> moving && !(underMaxSpeed && (Holds(mask, Forward) || Holds(mask, Backward)))
    ensures p.turn == TurnLeft <==> Holds(mask, Left)
    ensures p.turn == TurnRight <==> Holds(mask, Right) && !Holds(mask, Left)
    ensures p.shoot <==> Holds(mask, Shoot)
  {
    var thrust :=
      if Holds(mask, Forward) && underMaxSpeed then Accelerate
      else if Holds(mask, Backward) && underMaxSpeed then Reverse
      else if moving then Dampen
      else Coast;
    var turn :=
      if Holds(mask, Left) then TurnLeft
      else if Holds(mask, Right) then TurnRight
      else Straight;
    TickPlan(thrust, turn, Holds(mask, Shoot))
  }

  /** The cooldown rule: a shot at `now` is allowed unless less than `cooldown` has passed since `lastShot`. */
  function MayShoot(now: int, lastShot: int, cooldown: int): (ok: bool)
    ensures ok <==> lastShot + cooldown <= now
  {
    !(now - lastShot < cooldown)
  }

  /** The times among `attempts` at which a shot is actually fired, starting from the last shot at `lastShot`. */
  function Fired(attempts: seq<int>, lastShot: int, cooldown: int): (r: seq<int>)
    ensures |r| <= |attempts|
    ensures forall t :: t in r ==> t in attempts
  {
    if attempts == [] then []
    else if MayShoot(attempts[0], lastShot, cooldown) then [attempts[0]] + Fired(attempts[1..], attempts[0], cooldown)
    else Fired(attempts[1..], lastShot, cooldown)
  }

  /** However often a shot is attempted, fired shots are at least `cooldown` apart, the first one included. */
  lemma {:induction false} FiredSpaced(attempts: seq<int>, lastShot: int, cooldown: int)
    ensures var r := Fired(attempts, lastShot, cooldown);
      && (r != [] ==> lastShot + cooldown <= r[0])
      && forall k :: 0 <= k < |r| - 1 ==> r[k] + cooldown <= r[k + 1]
  {
    if attempts != [] {
      if MayShoot(attempts[0], lastShot, cooldown) {
        FiredSpaced(attempts[1..], attempts[0], cooldown);
      } else {
        FiredSpaced(attempts[1..], lastShot, cooldown);
      }
    }
  }

  /** An attempt the cooldown allows fires, and the next attempts are judged from it. */
  lemma FiredWhenAllowed(attempts: seq<int>, lastShot: int, cooldown: int)
    requires attempts != [] && lastShot + cooldown <= attempts[0]
    ensures Fired(attempts, lastShot, cooldown) == [attempts[0]] + Fired(attempts[1..], attempts[0], cooldown)
  {
  }

  /** An attempt the cooldown blocks does not fire and leaves the last shot as it was. */
  lemma FiredWhenBlocked(attempts: seq<int>, lastShot: int, cooldown: int)
    requires attempts != [] && attempts[0] < lastShot + cooldown
    ensures Fired(attempts, lastShot, cooldown) == Fired(attempts[1..], lastShot, cooldown)
  {
  }

  /** The last-shot time after a run of attempts. */
  function LastShotAfter(attempts: seq<int>, lastShot: int, cooldown: int): (t: int)
    decreases |attempts|
  {
    if attempts == [] then lastShot
    else if MayShoot(attempts[0], lastShot, cooldown) then LastShotAfter(attempts[1..], attempts[0], cooldown)
    else LastShotAfter(attempts[1..], lastShot, cooldown)
  }

  /** One more attempt fires exactly when the cooldown has passed since the last shot of the earlier attempts. */
  lemma {:induction false} FiredSnoc(attempts: seq<int>, t: int, lastShot: int, cooldown: int)
    ensures var last := LastShotAfter(attempts, lastShot, cooldown);
      && Fired(attempts + [t], lastShot, cooldown)
         == Fired(attempts, lastShot, cooldown) + (if MayShoot(t, last, cooldown) then [t] else [])
      && LastShotAfter(attempts + [t], lastShot, cooldown) == (if MayShoot(t, last, cooldown) then t else last)
    decreases |attempts|
  {
    if attempts == [] {
      assert attempts + [t] == [t];
      assert [t][1..] == [];
    } else {
      assert (attempts + [t])[1..] == attempts[1..] + [t];
      if MayShoot(attempts[0], lastShot, cooldown) {
        FiredSnoc(attempts[1..], t, attempts[0], cooldown);
      } else {
        FiredSnoc(attempts[1..], t, lastShot, cooldown);
      }
    }
  }

  /** `n` copies of one projectile. */
  function Volley(n: nat, p: Projectile): (r: seq<Projectile>)
    ensures |r| == n && forall k :: 0 <= k < n ==> r[k] == p
  {
    seq(n, _ => p)
  }

  /**
   The heading change a turn decision makes: a turn by the whole angle, left
   counter to the positive direction, or none when going straight.
   */
  function TurnBy(turn: Turn, turnAngle: real): (delta: real)
    ensures delta == 0.0 || delta == turnAngle || delta == -turnAngle
    ensures turn == Straight ==> delta == 0.0
    ensures turnAngle > 0.0 ==> (delta < 0.0 <==> turn == TurnLeft) && (delta > 0.0 <==> turn == TurnRight)
  {
    match turn
    case TurnLeft => -turnAngle
    case TurnRight => turnAngle
    case Straight => 0.0
  }

  class Player {
    var movement: bv8
    var rotation: real
    var lastShot: int
    const turnAngle: real
    const timeBetweenShots: int

    /** A player with no intents set whose last shot is at the clock's epoch, 0. */
    constructor (rotation: real, turnAngle: real, timeBetweenShots: int)
      ensures movement == 0 && lastShot == 0 && this.rotation == rotation
      ensures this.turnAngle == turnAngle && this.timeBetweenShots == timeBetweenShots
    {
      movement := 0;
      this.rotation := rotation;
      lastShot := 0;
      this.turnAngle := turnAngle;
      this.timeBetweenShots := timeBetweenShots;
    }

    method Set(s: MoveState)
      modifies this`movement
      ensures movement == SetBits(old(movement), Bit(s))
    {
      movement := movement | Bit(s);
    }

    method Clear(s: MoveState)
      modifies this`movement
      ensures movement == ClearBits(old(movement), Bit(s))
    {
      movement := movement & !Bit(s);
    }

    method ForwardDown()
      modifies this`movement
      ensures movement == SetBits(old(movement), Bit(Forward))
    {
      Set(Forward);
    }

    method ForwardUp()
      modifies this`movement
      ensures movement == ClearBits(old(movement), Bit(Forward))
    {
      Clear(Forward);
    }

    method BackwardDown()
      modifies this`movement
      ensures movement == SetBits(old(movement), Bit(Backward))
    {
      Set(Backward);
    }

    method BackwardUp()
      modifies this`movement
      ensures movement == ClearBits(old(movement), Bit(Backward))
    {
      Clear(Backward);
    }

    method LeftDown()
      modifies this`movement
      ensures movement == SetBits(old(movement), Bit(Left))
    {
      Set(Left);
    }

    method LeftUp()
      modifies this`movement
      ensures movement == ClearBits(old(movement), Bit(Left))
    {
      Clear(Left);
    }

    method RightDown()
      modifies this`movement
      ensures movement == SetBits(old(movement), Bit(Right))
    {
      Set(Right);
    }

    method RightUp()
      modifies this`movement
      ensures movement == ClearBits(old(movement), Bit(Right))
    {
      Clear(Right);
    }

    method ShootDown()
      modifies this`movement
      ensures movement == SetBits(old(movement), Bit(MoveState.Shoot))
    {
      Set(MoveState.Shoot);
    }

    method ShootUp()
      modifies this`movement
      ensures movement == ClearBits(old(movement), Bit(MoveState.Shoot))
    {
      Clear(MoveState.Shoot);
    }

    /**
     Fires a projectile from `muzzle` along the current heading if the
     cooldown has passed since the last shot, and then records `now` as
     the last shot; otherwise nothing changes.
     */
    method Shoot(dat: Data, now: int, muzzle: Vec2) returns (fired: bool)
      modifies this`lastShot, dat
      ensures fired <==> MayShoot(now, old(lastShot), timeBetweenShots)
      ensures lastShot == (if fired then now else old(lastShot))
      ensures dat.entities == old(dat.entities) + (if fired then [NewProjectile(muzzle, rotation)] else [])
      ensures dat.asteroids == old(dat.asteroids) && dat.incoming == old(dat.incoming)
    {
      if now - lastShot < timeBetweenShots {
        return false;
      }
      lastShot := now;
      dat.AddProjectile(muzzle, rotation);
      fired := true;
    }

    /**
     Attempts a shot at each time of `attempts` in turn, from the same
     muzzle and heading. Exactly the attempts `Fired` selects produce a
     projectile, and the last-shot time ends at the last of them.
     */
    method ShootEach(dat: Data, attempts: seq<int>, muzzle: Vec2)
      modifies this`lastShot, dat
      ensures dat.entities == old(dat.entities)
        + Volley(|Fired(attempts, old(lastShot), timeBetweenShots)|, NewProjectile(muzzle, rotation))
      ensures lastShot == LastShotAfter(attempts, old(lastShot), timeBetweenShots)
      ensures dat.asteroids == old(dat.asteroids) && dat.incoming == old(dat.incoming)
    {
      var shot := NewProjectile(muzzle, rotation);
      for k := 0 to |attempts|
        invariant dat.entities == old(dat.entities)
          + Volley(|Fired(attempts[..k], old(lastShot), timeBetweenShots)|, shot)
        invariant lastShot == LastShotAfter(attempts[..k], old(lastShot), timeBetweenShots)
        invariant dat.asteroids == old(dat.asteroids) && dat.incoming == old(dat.incoming)
      {
        assert attempts[..k + 1] == attempts[..k] + [attempts[k]];
        FiredSnoc(attempts[..k], attempts[k], old(lastShot), timeBetweenShots);
        var n := |Fired(attempts[..k], old(lastShot), timeBetweenShots)|;
        var fired := Shoot(dat, attempts[k], muzzle);
        if fired {
          assert Volley(n, shot) + [shot] == Volley(n + 1, shot);
        }
      }
      assert attempts[..|attempts|] == attempts;
    }

    /**
     The decision part of a player tick on one snapshot of the mask: the
     plan it follows, the turn applied to the heading, and a shot attempt
     (after the turn) when the shoot bit is set.
     */
    method Tick(dat: Data, underMaxSpeed: bool, moving: bool, now: int, muzzle: Vec2) returns (plan: TickPlan)
      modifies this`rotation, this`lastShot, dat
      ensures plan == Plan(old(movement), underMaxSpeed, moving)
      ensures rotation == old(rotation) + TurnBy(plan.turn, turnAngle)
      ensures var fired := plan.shoot && MayShoot(now, old(lastShot), timeBetweenShots);
        && lastShot == (if fired then now else old(lastShot))
        && dat.entities == old(dat.entities) + (if fired then [NewProjectile(muzzle, rotation)] else [])
      ensures dat.asteroids == old(dat.asteroids) && dat.incoming == old(dat.incoming)
    {
      var snapshot := movement;
      plan := Plan(snapshot, underMaxSpeed, moving);
      if snapshot & Bit(Left) != 0 {
        rotation := rotation - turnAngle;
      } else if snapshot & Bit(Right) != 0 {
        rotation := rotation + turnAngle;
      }
      if snapshot & Bit(MoveState.Shoot) != 0 {
        var _ := Shoot(dat, now, muzzle);
      }
    }
  }
}
