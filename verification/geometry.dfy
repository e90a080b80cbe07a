/**
 Circle geometry shared by the player and the obstacles: circles with a centre and
 a collision radius, the Euclidean distance as supplied by a `hypot` function, and
 the circle-overlap test the game calls `checkCollsiion`.

 Distances are exact reals. The host's `Math.hypot` is not available to Dafny, so
 every operation that needs it receives it as a parameter `hypot` constrained by
 `IsHypot`: the non-negative square root of `x*x + y*y`. Independent of `hypot`,
 the predicate `Closer` states "centre distance below a bound" on squared
 distances; the lemmas here connect the two.
 */
module Geometry {

  /** A circle: centre (`x`, `y`) and collision radius `r`. */
  datatype Circle = Circle(x: real, y: real, r: real)

  /** The squared distance between two centres. */
  function SqDist(a: Circle, b: Circle): real
  {
    (a.x - b.x) * (a.x - b.x) + (a.y - b.y) * (a.y - b.y)
  }

  /** `hypot` behaves like `Math.hypot` over the reals. */
  ghost predicate IsHypot(hypot: (real, real) -> real)
  {
    forall u, v :: hypot(u, v) >= 0.0 && hypot(u, v) * hypot(u, v) == u * u + v * v
  }

  /** The centre distance of `a` and `b` is strictly below `a.r + b.r + gap`,
      stated without square roots. */
  predicate Closer(a: Circle, b: Circle, gap: real)
  {
    var s := a.r + b.r + gap;
    s > 0.0 && SqDist(a, b) < s * s
  }

  /** The two circles overlap (touching does not count). */
  predicate Overlapping(a: Circle, b: Circle)
  {
    Closer(a, b, 0.0)
  }

  /** What `checkCollsiion` returns: the collision flag, the centre distance,
      the sum of the radii and the offset from `b` to `a`. */
  datatype Contact = Contact(collision: bool, distance: real, sumOfRadii: real, dx: real, dy: real)

  /** Two non-negative reals with the same square are equal. */
  lemma RootUnique(d1: real, d2: real)
    requires d1 >= 0.0 && d2 >= 0.0
    requires d1 * d1 == d2 * d2
    ensures d1 == d2
  {
    var s := d1 + d2;
    var t := d1 - d2;
    assert t * s == d1 * d1 - d2 * d2;
    if s > 0.0 {
      assert t == (t * s) / s;
    }
  }

  /** A non-negative root is zero exactly when its square is. */
  lemma RootZero(d: real)
    requires d >= 0.0
    ensures d > 0.0 <==> d * d > 0.0
  {
  }

  /** For a non-negative `d`, `d < s` exactly when `s` is positive and
      `d*d < s*s`. */
  lemma BelowBySquares(d: real, s: real)
    ensures d >= 0.0 ==> (d < s <==> s > 0.0 && d * d < s * s)
  {
    if d < 0.0 {
    } else if d < s {
      assert d * (s - d) >= 0.0;
      assert s * (s - d) > 0.0;
    } else if s > 0.0 {
      assert s * (d - s) >= 0.0;
      assert d * (d - s) >= 0.0;
    }
  }

  /** A `hypot` distance compared with a bound is the same as the squared test. */
  lemma HypotBelow(hypot: (real, real) -> real, a: Circle, b: Circle, gap: real)
    requires IsHypot(hypot)
    ensures hypot(a.y - b.y, a.x - b.x) < a.r + b.r + gap <==> Closer(a, b, gap)
  {
    var d := hypot(a.y - b.y, a.x - b.x);
    assert d * d == SqDist(a, b);
    BelowBySquares(d, a.r + b.r + gap);
  }

  /** The overlap test of `checkCollsiion`: the flag is set exactly when the
      centres are strictly closer than the sum of the radii. */
  function CheckCollision(a: Circle, b: Circle, hypot: (real, real) -> real): (c: Contact)
    requires IsHypot(hypot)
    ensures c.dx == a.x - b.x && c.dy == a.y - b.y
    ensures c.distance >= 0.0 && c.distance * c.distance == SqDist(a, b)
    ensures c.distance * c.distance == c.dx * c.dx + c.dy * c.dy
    ensures c.sumOfRadii == a.r + b.r
    ensures c.collision <==> Overlapping(a, b)
    ensures c.distance == c.sumOfRadii ==> !c.collision
  {
    var dx := a.x - b.x;
    var dy := a.y - b.y;
    var distance := hypot(dy, dx);
    var sumOfRadii := a.r + b.r;
    HypotBelow(hypot, a, b, 0.0);
    Contact(distance < sumOfRadii, distance, sumOfRadii, dx, dy)
  }

  /** Swapping the arguments negates the offset and keeps the distance, the
      sum of the radii and the flag. */
  lemma CheckCollisionSymmetric(a: Circle, b: Circle, hypot: (real, real) -> real)
    requires IsHypot(hypot)
    ensures CheckCollision(b, a, hypot).dx == -CheckCollision(a, b, hypot).dx
    ensures CheckCollision(b, a, hypot).dy == -CheckCollision(a, b, hypot).dy
    ensures CheckCollision(b, a, hypot).distance == CheckCollision(a, b, hypot).distance
    ensures CheckCollision(b, a, hypot).sumOfRadii == CheckCollision(a, b, hypot).sumOfRadii
    ensures CheckCollision(b, a, hypot).collision == CheckCollision(a, b, hypot).collision
  {
    var ab := CheckCollision(a, b, hypot);
    var ba := CheckCollision(b, a, hypot);
    assert SqDist(a, b) == SqDist(b, a);
    RootUnique(ab.distance, ba.distance);
  }
}
