/**
 The player: a circle that chases the mouse at a fixed speed and is pushed back
 out of any obstacle it runs into. `Update` is one frame of `Player.update`:
 the seek step followed by the sweep over the obstacles.

 The sweep divides by the centre distance to a colliding obstacle without a
 guard; over the reals that distance is zero only when the two centres coincide,
 and there the model reports `Coincident` with the obstacle's index instead of
 the host's NaN position.
 */
module Players {
  import opened Geometry
  import opened Obstacles

  const PlayerRadius: real := 30.0
  const SpeedModifier: real := 20.0

  /** The mouse record shared with the event handlers. */
  datatype Mouse = Mouse(x: real, y: real, pressed: bool)

  datatype Player = Player(
    collisionX: real, collisionY: real, collisionRadius: real,
    speedX: real, speedY: real,
    dx: real, dy: real,
    speedModifier: real)
  {
    /** The collision circle. */
    function Circle(): Geometry.Circle
    {
      Geometry.Circle(collisionX, collisionY, collisionRadius)
    }

    /** The same player at another position. */
    function At(x: real, y: real): Player
    {
      this.(collisionX := x, collisionY := y)
    }
  }

  /** The result of a frame: the new player, or the index of the obstacle whose
      centre the player's centre coincided with while colliding. */
  datatype Outcome<T> = Ok(value: T) | Coincident(obstacle: nat)

  /** The `Player` constructor: centred on the game area, at rest. */
  function NewPlayer(gameWidth: real, gameHeight: real): (p: Player)
    ensures p.collisionX * 2.0 == gameWidth && p.collisionY * 2.0 == gameHeight
    ensures p.speedX == 0.0 && p.speedY == 0.0
    ensures p.dx == 0.0 && p.dy == 0.0
    ensures p.collisionRadius == PlayerRadius && p.speedModifier == SpeedModifier
  {
    Player(gameWidth * 0.5, gameHeight * 0.5, PlayerRadius, 0.0, 0.0, 0.0, 0.0, SpeedModifier)
  }

  /** The squared distance from the player to the mouse. */
  function SqToMouse(p: Player, m: Mouse): real
  {
    (m.x - p.collisionX) * (m.x - p.collisionX) + (m.y - p.collisionY) * (m.y - p.collisionY)
  }

  /** The seek step of `Player.update`. Within one step of the mouse the
      player comes to rest in place; farther away its velocity is the unit
      vector toward the mouse and it moves exactly `speedModifier` along it,
      ending exactly `speedModifier` closer. */
  function Seek(p: Player, m: Mouse, hypot: (real, real) -> real): (q: Player)
    requires IsHypot(hypot)
    ensures q.dx == m.x - p.collisionX && q.dy == m.y - p.collisionY
    ensures q.collisionRadius == p.collisionRadius && q.speedModifier == p.speedModifier
    ensures p.speedModifier >= 0.0 ==>
      (SqToMouse(p, m) <= p.speedModifier * p.speedModifier <==> q.speedX == 0.0 && q.speedY == 0.0)
    ensures q.speedX == 0.0 && q.speedY == 0.0 ==> q.At(p.collisionX, p.collisionY) == q
    ensures p.speedModifier >= 0.0 && SqToMouse(p, m) > p.speedModifier * p.speedModifier ==>
      Advanced(p, m, q, hypot(m.y - p.collisionY, m.x - p.collisionX))
  {
    SeekWith(p, m, hypot(m.y - p.collisionY, m.x - p.collisionX))
  }

  /** The seek step with the distance to the mouse already measured. The
      `|| 0` guard of the quotients matters only for 0 / 0, when the velocity
      is zero as well. */
  function SeekWith(p: Player, m: Mouse, distance: real): (q: Player)
    requires distance >= 0.0 && distance * distance == SqToMouse(p, m)
    ensures q.dx == m.x - p.collisionX && q.dy == m.y - p.collisionY
    ensures q.collisionRadius == p.collisionRadius && q.speedModifier == p.speedModifier
    ensures p.speedModifier >= 0.0 ==>
      (SqToMouse(p, m) <= p.speedModifier * p.speedModifier <==> q.speedX == 0.0 && q.speedY == 0.0)
    ensures q.speedX == 0.0 && q.speedY == 0.0 ==> q.At(p.collisionX, p.collisionY) == q
    ensures p.speedModifier >= 0.0 && SqToMouse(p, m) > p.speedModifier * p.speedModifier ==>
      Advanced(p, m, q, distance)
  {
    BelowBySquares(p.speedModifier, distance);
    RootZero(distance);
    if distance > p.speedModifier && distance != 0.0 then Stride(p, m, distance)
    else Player(p.collisionX, p.collisionY, p.collisionRadius, 0.0, 0.0,
                m.x - p.collisionX, m.y - p.collisionY, p.speedModifier)
  }

  /** `q` is `p` moved one step toward the mouse, which was `distance` away:
      the velocity is a unit vector along the offset to the mouse and pointing
      at it, the move has length `speedModifier`, and what is left of the way
      has length `distance - speedModifier`. */
  predicate Advanced(p: Player, m: Mouse, q: Player, distance: real)
  {
    && q.speedX * q.speedX + q.speedY * q.speedY == 1.0
    && q.speedX * q.dy == q.speedY * q.dx
    && q.speedX * q.dx + q.speedY * q.dy > 0.0
    && (q.collisionX - p.collisionX) * (q.collisionX - p.collisionX)
       + (q.collisionY - p.collisionY) * (q.collisionY - p.collisionY)
       == p.speedModifier * p.speedModifier
    && SqToMouse(q, m) == (distance - p.speedModifier) * (distance - p.speedModifier)
  }

  /** The moving branch of the seek step, for a mouse at positive `distance`. */
  function Stride(p: Player, m: Mouse, distance: real): (q: Player)
    requires distance > 0.0 && distance * distance == SqToMouse(p, m)
    ensures q.dx == m.x - p.collisionX && q.dy == m.y - p.collisionY
    ensures q.collisionRadius == p.collisionRadius && q.speedModifier == p.speedModifier
    ensures Advanced(p, m, q, distance)
  {
    var dx := m.x - p.collisionX;
    var dy := m.y - p.collisionY;
    var speedX := dx / distance;
    var speedY := dy / distance;
    Steps(dx, dy, distance, p.speedModifier);
    Player(
      p.collisionX + speedX * p.speedModifier, p.collisionY + speedY * p.speedModifier,
      p.collisionRadius, speedX, speedY, dx, dy, p.speedModifier)
  }

  /** Dividing an offset by its length gives a unit vector. */
  lemma UnitDirection(dx: real, dy: real, d: real)
    requires d > 0.0 && d * d == dx * dx + dy * dy
    ensures (dx / d) * (dx / d) + (dy / d) * (dy / d) == 1.0
  {
    var sx, sy := dx / d, dy / d;
    assert sx * d == dx && sy * d == dy;
    calc {
      (sx * sx + sy * sy) * (d * d);
      (sx * d) * (sx * d) + (sy * d) * (sy * d);
      dx * dx + dy * dy;
      d * d;
    }
  }

  /** A step of length `sm` along the unit vector of the offset (`dx`, `dy`)
      of length `d`: the step has length `sm`, and what is left of the offset
      has length `d - sm`. */
  lemma Steps(dx: real, dy: real, d: real, sm: real)
    requires d > 0.0 && d * d == dx * dx + dy * dy
    ensures (dx / d) * (dx / d) + (dy / d) * (dy / d) == 1.0
    ensures (dx / d) * dy == (dy / d) * dx
    ensures (dx / d) * dx + (dy / d) * dy > 0.0
    ensures ((dx / d) * sm) * ((dx / d) * sm) + ((dy / d) * sm) * ((dy / d) * sm) == sm * sm
    ensures (dx - (dx / d) * sm) * (dx - (dx / d) * sm) + (dy - (dy / d) * sm) * (dy - (dy / d) * sm)
            == (d - sm) * (d - sm)
  {
    var sx, sy := dx / d, dy / d;
    UnitDirection(dx, dy, d);
    assert sx * d == dx && sy * d == dy;
    assert sx * dx + sy * dy == (sx * sx + sy * sy) * d;
    assert (sx * sm) * (sx * sm) + (sy * sm) * (sy * sm) == (sx * sx + sy * sy) * (sm * sm);
    assert dx - sx * sm == sx * (d - sm);
    assert dy - sy * sm == sy * (d - sm);
    assert (sx * (d - sm)) * (sx * (d - sm)) + (sy * (d - sm)) * (sy * (d - sm))
        == (sx * sx + sy * sy) * ((d - sm) * (d - sm));
  }

  /** With the mouse exactly on the player the velocity is zero and the player
      stays put, whatever the speed modifier (the `|| 0` guard at work). */
  lemma SeekAtMouse(p: Player, m: Mouse, hypot: (real, real) -> real)
    requires IsHypot(hypot)
    requires m.x == p.collisionX && m.y == p.collisionY
    ensures Seek(p, m, hypot).speedX == 0.0 && Seek(p, m, hypot).speedY == 0.0
    ensures Seek(p, m, hypot).At(p.collisionX, p.collisionY) == Seek(p, m, hypot)
  {
    var d := hypot(0.0, 0.0);
    assert d * d == 0.0;
    RootUnique(d, 0.0);
  }

  /** Whether the player's centre is exactly on the obstacle's centre
      (stated on the squared distance, which is zero exactly then). */
  predicate SameCentre(p: Player, o: Obstacle)
  {
    !(SqDist(p.Circle(), o.Circle()) > 0.0)
  }

  /** One step of the collision sweep: a player colliding with obstacle
      `index` is put back on the ray from the obstacle's centre through its own
      centre, one unit beyond touching distance; otherwise it is left alone. */
  function PushOut(p: Player, o: Obstacle, index: nat, hypot: (real, real) -> real): (r: Outcome<Player>)
    requires IsHypot(hypot)
    ensures !Overlapping(p.Circle(), o.Circle()) ==> r == Ok(p)
    ensures Overlapping(p.Circle(), o.Circle()) && SameCentre(p, o) ==> r == Coincident(index)
    ensures Overlapping(p.Circle(), o.Circle()) && !SameCentre(p, o) ==> r.Ok? && PushedOut(p, o, r.value)
  {
    var c := CheckCollision(p.Circle(), o.Circle(), hypot);
    RootZero(c.distance);
    if !c.collision then Ok(p)
    else if c.distance == 0.0 then Coincident(index)
    else Ok(Reposition(p, o, c))
  }

  /** Where a push-out leaves player `p` after a collision with `o`: only the
      position changes; the new centre is at distance `sumOfRadii + 1` from the
      obstacle's centre, so the two no longer collide; and it lies on the ray
      from the obstacle's centre through the old centre. */
  predicate PushedOut(p: Player, o: Obstacle, q: Player)
  {
    var reach := p.collisionRadius + o.collisionRadius + 1.0;
    && q.At(p.collisionX, p.collisionY) == p
    && SqDist(q.Circle(), o.Circle()) == reach * reach
    && !Overlapping(q.Circle(), o.Circle())
    && (q.collisionX - o.collisionX) * (p.collisionY - o.collisionY)
       == (q.collisionY - o.collisionY) * (p.collisionX - o.collisionX)
    && (q.collisionX - o.collisionX) * (p.collisionX - o.collisionX)
       + (q.collisionY - o.collisionY) * (p.collisionY - o.collisionY) > 0.0
  }

  /** The push-out itself, given the contact `c` between the player and the
      obstacle: the obstacle's centre plus `sumOfRadii + 1` times the unit
      offset from the obstacle to the player. */
  function Reposition(p: Player, o: Obstacle, c: Contact): (q: Player)
    requires c.dx == p.collisionX - o.collisionX && c.dy == p.collisionY - o.collisionY
    requires c.distance > 0.0 && c.distance * c.distance == c.dx * c.dx + c.dy * c.dy
    requires c.sumOfRadii == p.collisionRadius + o.collisionRadius && c.sumOfRadii > 0.0
    ensures PushedOut(p, o, q)
  {
    var unitX := c.dx / c.distance;
    var unitY := c.dy / c.distance;
    var q := p.At(o.collisionX + (c.sumOfRadii + 1.0) * unitX, o.collisionY + (c.sumOfRadii + 1.0) * unitY);
    ScaledUnit(c.dx, c.dy, c.distance, c.sumOfRadii + 1.0);
    Beyond(c.sumOfRadii);
    q
  }

  /** `reach` times the unit vector of (`dx`, `dy`) has length `reach` and
      points the same way as (`dx`, `dy`). */
  lemma ScaledUnit(dx: real, dy: real, d: real, reach: real)
    requires d > 0.0 && d * d == dx * dx + dy * dy && reach > 0.0
    ensures (reach * (dx / d)) * (reach * (dx / d)) + (reach * (dy / d)) * (reach * (dy / d)) == reach * reach
    ensures (reach * (dx / d)) * dy == (reach * (dy / d)) * dx
    ensures (reach * (dx / d)) * dx + (reach * (dy / d)) * dy > 0.0
  {
    UnitDirection(dx, dy, d);
    var ux, uy := dx / d, dy / d;
    assert (reach * ux) * (reach * ux) + (reach * uy) * (reach * uy) == (reach * reach) * (ux * ux + uy * uy);
    assert ux * d == dx && uy * d == dy;
    assert (reach * ux) * dx + (reach * uy) * dy == (reach * d) * (ux * ux + uy * uy);
  }

  /** One unit beyond a positive sum of radii is not closer than it. */
  lemma Beyond(s: real)
    requires s > 0.0
    ensures !((s + 1.0) * (s + 1.0) < s * s)
  {
    assert (s + 1.0) * (s + 1.0) == s * s + 2.0 * s + 1.0;
  }

  /** `q` is where the last push of a sweep over `obstacles` left the player:
      one unit beyond touching obstacle `k`, and clear of every obstacle the
      sweep visited after `k`. */
  predicate LastPush(q: Player, obstacles: seq<Obstacle>, k: int)
  {
    && 0 <= k < |obstacles|
    && SqDist(q.Circle(), obstacles[k].Circle())
       == (q.collisionRadius + obstacles[k].collisionRadius + 1.0)
          * (q.collisionRadius + obstacles[k].collisionRadius + 1.0)
    && forall j :: k < j < |obstacles| ==> !Overlapping(q.Circle(), obstacles[j].Circle())
  }

  /** The collision sweep of `Player.update`: the obstacles in order, each one
      pushing the player out if it collides with the player's current position.
      A completed sweep either moved nothing, because no obstacle collided, or
      ends at its last push. */
  function Resolve(p: Player, obstacles: seq<Obstacle>, hypot: (real, real) -> real): (r: Outcome<Player>)
    requires IsHypot(hypot)
    ensures r.Ok? ==> r.value.At(p.collisionX, p.collisionY) == p
    ensures r.Ok? ==>
      || (r.value == p && forall i :: 0 <= i < |obstacles| ==> !Overlapping(p.Circle(), obstacles[i].Circle()))
      || exists k :: LastPush(r.value, obstacles, k)
    ensures r.Ok? && |obstacles| > 0 ==> !Overlapping(r.value.Circle(), obstacles[|obstacles| - 1].Circle())
    ensures r.Coincident? ==> r.obstacle < |obstacles|
    ensures (forall i :: 0 <= i < |obstacles| ==> !Overlapping(p.Circle(), obstacles[i].Circle())) ==> r == Ok(p)
    decreases |obstacles|
  {
    if obstacles == [] then Ok(p)
    else
      var last := |obstacles| - 1;
      match Resolve(p, obstacles[..last], hypot)
      case Coincident(k) => Coincident(k)
      case Ok(q) =>
        var r := PushOut(q, obstacles[last], last, hypot);
        if r.Ok? then
          PushedLast(q, obstacles, r.value);
          SweepStep(p, q, obstacles, r);
          r
        else r
  }

  /** A push out of the last obstacle is the sweep's last push. */
  lemma PushedLast(q: Player, obstacles: seq<Obstacle>, pushed: Player)
    requires |obstacles| > 0
    ensures PushedOut(q, obstacles[|obstacles| - 1], pushed) ==> LastPush(pushed, obstacles, |obstacles| - 1)
  {
  }

  /** Extending a sweep by one obstacle keeps "nothing moved" or "ends at its
      last push". */
  lemma SweepStep(p: Player, q: Player, obstacles: seq<Obstacle>, r: Outcome<Player>)
    requires |obstacles| > 0
    requires
      var before := obstacles[..|obstacles| - 1];
      || (q == p && forall i :: 0 <= i < |before| ==> !Overlapping(p.Circle(), before[i].Circle()))
      || exists k :: LastPush(q, before, k)
    requires r.Ok? ==>
      || (r.value == q && !Overlapping(q.Circle(), obstacles[|obstacles| - 1].Circle()))
      || LastPush(r.value, obstacles, |obstacles| - 1)
    ensures r.Ok? ==>
      || (r.value == p && forall i :: 0 <= i < |obstacles| ==> !Overlapping(p.Circle(), obstacles[i].Circle()))
      || exists k :: LastPush(r.value, obstacles, k)
  {
    var before := obstacles[..|obstacles| - 1];
    if r.Ok? && r.value == q && !Overlapping(q.Circle(), obstacles[|obstacles| - 1].Circle()) {
      if exists k :: LastPush(q, before, k) {
        var k :| LastPush(q, before, k);
        StillLastPush(q, obstacles, k);
      } else {
        StillClear(p, before, obstacles);
      }
    }
  }

  /** A last push stays the last push when the sweep goes on past an obstacle
      that does not collide. */
  lemma StillLastPush(q: Player, obstacles: seq<Obstacle>, k: int)
    requires |obstacles| > 0
    requires LastPush(q, obstacles[..|obstacles| - 1], k)
    requires !Overlapping(q.Circle(), obstacles[|obstacles| - 1].Circle())
    ensures LastPush(q, obstacles, k)
  {
    var before := obstacles[..|obstacles| - 1];
    assert before[k] == obstacles[k];
    forall j | k < j < |obstacles|
      ensures !Overlapping(q.Circle(), obstacles[j].Circle())
    {
      if j < |before| {
        assert before[j] == obstacles[j];
      }
    }
  }

  /** A player clear of every obstacle but the last, and of the last, is clear
      of them all. */
  lemma StillClear(p: Player, before: seq<Obstacle>, obstacles: seq<Obstacle>)
    requires |obstacles| > 0 && before == obstacles[..|obstacles| - 1]
    requires forall i :: 0 <= i < |before| ==> !Overlapping(p.Circle(), before[i].Circle())
    requires !Overlapping(p.Circle(), obstacles[|obstacles| - 1].Circle())
    ensures forall i :: 0 <= i < |obstacles| ==> !Overlapping(p.Circle(), obstacles[i].Circle())
  {
    forall i | 0 <= i < |before|
      ensures !Overlapping(p.Circle(), obstacles[i].Circle())
    {
      assert before[i] == obstacles[i];
    }
  }

  /** One frame of `Player.update`: seek the mouse, then sweep the obstacles. */
  function Update(p: Player, m: Mouse, obstacles: seq<Obstacle>, hypot: (real, real) -> real): (r: Outcome<Player>)
    requires IsHypot(hypot)
    // everything but the position is what the seek step set
    ensures r.Ok? ==> r.value.At(Seek(p, m, hypot).collisionX, Seek(p, m, hypot).collisionY) == Seek(p, m, hypot)
    ensures r.Ok? ==> r.value.collisionRadius == p.collisionRadius && r.value.speedModifier == p.speedModifier
    ensures r.Ok? ==> r.value.dx == m.x - p.collisionX && r.value.dy == m.y - p.collisionY
    // the player stays where the seek step put it, clear of every obstacle,
    // or ends one unit outside the last obstacle that pushed it
    ensures r.Ok? ==>
      || (r.value == Seek(p, m, hypot)
          && forall i :: 0 <= i < |obstacles| ==> !Overlapping(r.value.Circle(), obstacles[i].Circle()))
      || exists k :: LastPush(r.value, obstacles, k)
    // a completed sweep leaves the player clear of the last obstacle
    ensures r.Ok? && |obstacles| > 0 ==> !Overlapping(r.value.Circle(), obstacles[|obstacles| - 1].Circle())
    ensures r.Coincident? ==> r.obstacle < |obstacles|
    // where the seek step lands clear of every obstacle, nothing is pushed
    ensures (forall i :: 0 <= i < |obstacles| ==> !Overlapping(Seek(p, m, hypot).Circle(), obstacles[i].Circle()))
      ==> r == Ok(Seek(p, m, hypot))
  {
    Resolve(Seek(p, m, hypot), obstacles, hypot)
  }
}
