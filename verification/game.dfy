/**
 The game: its area, the player, the obstacles and the mouse, and `init`, the
 brute-force circle packing that places the obstacles before play starts.

 `init` draws up to 500 candidate obstacles and keeps each one that lies in the
 play window and whose circle keeps a buffer of 100 units from every obstacle
 kept so far, until it holds `numberOfObstacles` of them. Its calls to
 `Math.random` are a stream `draw` of `Candidate`s: attempt `n` builds its test
 obstacle from `draw(n)`.

 `Placements` is the packing as a recursive function over the number of
 attempts; the method `Init` is the loop itself, and is proved to compute it.
 */
module Games {
  import opened Geometry
  import opened Obstacles
  import opened Players

  /** The size the canvas is given on load. */
  const CanvasWidth: real := 1280.0
  const CanvasHeight: real := 720.0
  /** The band at the top of the area that obstacles stay below. */
  const TopMargin: real := 150.0
  const NumberOfObstacles: nat := 10
  /** The most candidates `init` tries. */
  const MaxAttempts: nat := 500
  /** The extra clearance `init` keeps between obstacle circles. */
  const DistanceBuffer: real := 100.0

  datatype Game = Game(
    width: real, height: real, topMargin: real, numberOfObstacles: nat,
    player: Player, obstacles: seq<Obstacle>, mouse: Mouse)

  /** The `Game` constructor: a player at the centre, no obstacles yet, and the
      mouse at the centre, not pressed. */
  function NewGame(width: real, height: real): (g: Game)
    ensures g.width == width && g.height == height
    ensures g.topMargin == TopMargin && g.numberOfObstacles == NumberOfObstacles
    ensures g.obstacles == []
    ensures g.player == NewPlayer(width, height)
    ensures g.mouse.x == g.player.collisionX && g.mouse.y == g.player.collisionY && !g.mouse.pressed
  {
    Game(width, height, TopMargin, NumberOfObstacles, NewPlayer(width, height), [],
         Mouse(width * 0.5, height * 0.5, false))
  }

  /** A new game's player is already at the mouse, so its first seek step
      leaves it exactly as it was. */
  lemma NewGameAtRest(width: real, height: real, hypot: (real, real) -> real)
    requires IsHypot(hypot)
    ensures Seek(NewGame(width, height).player, NewGame(width, height).mouse, hypot) == NewGame(width, height).player
  {
    var g := NewGame(width, height);
    SeekAtMouse(g.player, g.mouse, hypot);
  }

  /** The overlap flag of one `init` attempt: the test obstacle's centre is
      closer than the two radii plus the buffer to some obstacle already
      placed. */
  function Overlap(t: Obstacle, placed: seq<Obstacle>, hypot: (real, real) -> real): (b: bool)
    requires IsHypot(hypot)
    ensures b <==> exists i :: 0 <= i < |placed| && Closer(t.Circle(), placed[i].Circle(), DistanceBuffer)
    decreases |placed|
  {
    if placed == [] then false
    else
      var last := |placed| - 1;
      var o := placed[last];
      var distance := hypot(t.collisionY - o.collisionY, t.collisionX - o.collisionX);
      var sumOfRadii := t.collisionRadius + o.collisionRadius + DistanceBuffer;
      HypotBelow(hypot, t.Circle(), o.Circle(), DistanceBuffer);
      assert forall i :: 0 <= i < last ==> placed[..last][i] == placed[i];
      Overlap(t, placed[..last], hypot) || distance < sumOfRadii
  }

  /** The window test of `init` for obstacle `o` in game `g`. */
  predicate InWindow(g: Game, o: Obstacle)
  {
    InPlayArea(o, g.width, g.height, g.topMargin)
  }

  /** One attempt of `init` with test obstacle `t`: keep it when it overlaps
      nothing placed and lies in the window. The obstacles already placed are
      never altered, at most one is added, one is added exactly when the test
      obstacle is admissible, and what is added is `t`. */
  function Attempt(g: Game, placed: seq<Obstacle>, t: Obstacle, hypot: (real, real) -> real): (r: seq<Obstacle>)
    requires IsHypot(hypot)
    ensures placed <= r && |r| <= |placed| + 1
    ensures |r| == |placed| + 1 <==>
      && InWindow(g, t)
      && forall i :: 0 <= i < |placed| ==> !Closer(t.Circle(), placed[i].Circle(), DistanceBuffer)
    ensures |r| == |placed| + 1 ==> r[|placed|] == t
  {
    var overlap := Overlap(t, placed, hypot);
    var margin := t.collisionRadius * 2.0;
    if && !overlap
       && t.spriteX > 0.0
       && t.spriteX < g.width - t.width
       && t.collisionY > g.topMargin + margin
       && t.collisionY < g.height - margin
    then placed + [t]
    else placed
  }

  /** The obstacles after `n` iterations of the `init` loop from game `g`:
      an attempt is made only while fewer than `numberOfObstacles` are placed. */
  function Placements(g: Game, draw: nat -> Candidate, hypot: (real, real) -> real, n: nat): (r: seq<Obstacle>)
    requires IsHypot(hypot)
    ensures g.obstacles <= r
    ensures |r| <= |g.obstacles| + n
    ensures |g.obstacles| <= g.numberOfObstacles ==> |r| <= g.numberOfObstacles
    decreases n
  {
    if n == 0 then g.obstacles
    else
      var before := Placements(g, draw, hypot, n - 1);
      if |before| < g.numberOfObstacles then Attempt(g, before, NewObstacle(g.width, g.height, draw(n - 1)), hypot)
      else before
  }

  /** Packing is an invariant of the `init` loop: started from packed
      obstacles, every number of iterations leaves them packed. */
  lemma {:induction false} PlacementsPacked(g: Game, draw: nat -> Candidate, hypot: (real, real) -> real, n: nat)
    requires IsHypot(hypot)
    ensures Packed(g, g.obstacles) ==> Packed(g, Placements(g, draw, hypot, n))
    decreases n
  {
    if n > 0 {
      PlacementsPacked(g, draw, hypot, n - 1);
      AttemptKeepsPacked(g, Placements(g, draw, hypot, n - 1), draw(n - 1), hypot);
    }
  }

  /** An obstacle `init` could have admitted: built by the `Obstacle`
      constructor's rules and inside the window. */
  predicate Admitted(g: Game, o: Obstacle)
  {
    && o.collisionRadius == CollisionRadius
    && o.width == SpriteWidth
    && o.spriteX + o.width / 2.0 == o.collisionX
    && InWindow(g, o)
  }

  /** Every later obstacle keeps the buffer from every earlier one. */
  predicate Separated(obstacles: seq<Obstacle>)
  {
    forall i, j :: 0 <= i < j < |obstacles| ==>
      !Closer(obstacles[j].Circle(), obstacles[i].Circle(), DistanceBuffer)
  }

  /** What `init` guarantees of the obstacles it places. */
  predicate Packed(g: Game, obstacles: seq<Obstacle>)
  {
    && (forall i :: 0 <= i < |obstacles| ==> Admitted(g, obstacles[i]))
    && Separated(obstacles)
  }

  /** An attempt keeps the placed obstacles packed. */
  lemma AttemptKeepsPacked(g: Game, placed: seq<Obstacle>, c: Candidate, hypot: (real, real) -> real)
    requires IsHypot(hypot)
    ensures Packed(g, placed) ==> Packed(g, Attempt(g, placed, NewObstacle(g.width, g.height, c), hypot))
  {
    var r := Attempt(g, placed, NewObstacle(g.width, g.height, c), hypot);
    if Packed(g, placed) && |r| == |placed| + 1 {
      var t := NewObstacle(g.width, g.height, c);
      assert r == placed + [t];
      assert forall i :: 0 <= i < |placed| ==> r[i] == placed[i];
      assert Admitted(g, t);
    }
  }

  /** An iteration that starts with fewer than `numberOfObstacles` placed is
      one attempt. */
  lemma PlacementsNext(g: Game, draw: nat -> Candidate, hypot: (real, real) -> real, n: nat)
    requires IsHypot(hypot)
    ensures |Placements(g, draw, hypot, n)| < g.numberOfObstacles ==>
      Placements(g, draw, hypot, n + 1) == Attempt(g, Placements(g, draw, hypot, n), NewObstacle(g.width, g.height, draw(n)), hypot)
  {
  }

  /** Later attempts never alter the obstacles of earlier ones. */
  lemma {:induction false} PlacementsPrefix(g: Game, draw: nat -> Candidate, hypot: (real, real) -> real, m: nat, n: nat)
    requires IsHypot(hypot)
    requires m <= n
    ensures Placements(g, draw, hypot, m) <= Placements(g, draw, hypot, n)
    decreases n
  {
    if m < n {
      PlacementsPrefix(g, draw, hypot, m, n - 1);
      var a, b, c := Placements(g, draw, hypot, m), Placements(g, draw, hypot, n - 1), Placements(g, draw, hypot, n);
      assert b <= c;
      assert a == b[..|a|] && b == c[..|b|];
      assert c[..|b|][..|a|] == c[..|a|];
    }
  }

  /** Each iteration adds at most one obstacle, and the obstacle it adds is the
      one built from that iteration's draw. */
  lemma PlacementsStep(g: Game, draw: nat -> Candidate, hypot: (real, real) -> real, n: nat)
    requires IsHypot(hypot)
    ensures var before, after := Placements(g, draw, hypot, n), Placements(g, draw, hypot, n + 1);
      || after == before
      || after == before + [NewObstacle(g.width, g.height, draw(n))]
  {
    var before, after := Placements(g, draw, hypot, n), Placements(g, draw, hypot, n + 1);
    if |after| == |before| + 1 {
      assert after == after[..|before|] + [after[|before|]];
    }
  }

  /** Any two distinct obstacles of a packed list, in either order, are at
      least the two radii plus the buffer apart, as `checkCollsiion` measures
      distance. */
  lemma PackedApart(g: Game, obstacles: seq<Obstacle>, i: int, j: int, hypot: (real, real) -> real)
    requires IsHypot(hypot)
    requires Packed(g, obstacles)
    requires 0 <= i < |obstacles| && 0 <= j < |obstacles| && i != j
    ensures CheckCollision(obstacles[i].Circle(), obstacles[j].Circle(), hypot).distance
            >= obstacles[i].collisionRadius + obstacles[j].collisionRadius + DistanceBuffer
    ensures !CheckCollision(obstacles[i].Circle(), obstacles[j].Circle(), hypot).collision
  {
    var a, b := obstacles[i].Circle(), obstacles[j].Circle();
    assert SqDist(a, b) == SqDist(b, a);
    assert !Closer(a, b, DistanceBuffer);
    HypotBelow(hypot, a, b, DistanceBuffer);
    HypotBelow(hypot, a, b, 0.0);
  }

  /** `init`: the packing loop. It returns the game with its obstacles placed;
      `tries` is the number of iterations the loop ran. */
  method Init(g: Game, draw: nat -> Candidate, hypot: (real, real) -> real) returns (r: Game, ghost tries: nat)
    requires IsHypot(hypot)
    ensures r == g.(obstacles := Placements(g, draw, hypot, tries))
    // the attempts the loop did not make would have changed nothing
    ensures forall n :: tries <= n <= MaxAttempts ==> Placements(g, draw, hypot, n) == r.obstacles
    ensures tries <= MaxAttempts
    // the loop stops only when enough obstacles are placed or the attempts run out
    ensures |r.obstacles| >= g.numberOfObstacles || tries == MaxAttempts
    ensures |r.obstacles| <= |g.obstacles| + tries
    ensures |g.obstacles| <= g.numberOfObstacles ==> |r.obstacles| <= g.numberOfObstacles
    ensures g.obstacles <= r.obstacles
    ensures Packed(g, g.obstacles) ==> Packed(g, r.obstacles)
    // every obstacle placed has its whole circle in the area, below the top margin
    ensures Packed(g, g.obstacles) ==>
      forall i :: 0 <= i < |r.obstacles| ==> CircleInside(r.obstacles[i], g.width, g.height, g.topMargin)
  {
    var obstacles := g.obstacles;
    var attempts: nat := 0;
    while |obstacles| < g.numberOfObstacles && attempts < MaxAttempts
      invariant attempts <= MaxAttempts
      invariant obstacles == Placements(g, draw, hypot, attempts)
      decreases MaxAttempts - attempts
    {
      var test := NewObstacle(g.width, g.height, draw(attempts));
      obstacles := TryCandidate(g, obstacles, test, hypot);
      PlacementsNext(g, draw, hypot, attempts);
      attempts := attempts + 1;
    }
    r := g.(obstacles := obstacles);
    tries := attempts;
    PlacementsSettled(g, draw, hypot, attempts);
    PlacementsPacked(g, draw, hypot, attempts);
    PackedInside(g, obstacles);
  }

  /** Every obstacle of a packed list has its whole circle inside the area,
      below the top margin. */
  lemma PackedInside(g: Game, obstacles: seq<Obstacle>)
    ensures Packed(g, obstacles) ==>
      forall i :: 0 <= i < |obstacles| ==> CircleInside(obstacles[i], g.width, g.height, g.topMargin)
  {
  }

  /** The body of the `init` loop after the test obstacle is built: test it
      for overlap and against the window, and push it when it passes. */
  method TryCandidate(g: Game, placed: seq<Obstacle>, test: Obstacle, hypot: (real, real) -> real)
    returns (obstacles: seq<Obstacle>)
    requires IsHypot(hypot)
    ensures obstacles == Attempt(g, placed, test, hypot)
  {
    obstacles := placed;
    var overlap := TestOverlap(test, obstacles, hypot);
    var margin := test.collisionRadius * 2.0;
    if && !overlap
       && test.spriteX > 0.0
       && test.spriteX < g.width - test.width
       && test.collisionY > g.topMargin + margin
       && test.collisionY < g.height - margin
    {
      obstacles := obstacles + [test];
    }
  }

  /** The `forEach` of an `init` attempt: sets the overlap flag when the test
      obstacle comes closer than the two radii plus the buffer to any obstacle
      placed so far. */
  method TestOverlap(test: Obstacle, placed: seq<Obstacle>, hypot: (real, real) -> real) returns (overlap: bool)
    requires IsHypot(hypot)
    ensures overlap <==> exists k :: 0 <= k < |placed| && Closer(test.Circle(), placed[k].Circle(), DistanceBuffer)
  {
    overlap := false;
    for i := 0 to |placed|
      invariant overlap <==> exists k :: 0 <= k < i && Closer(test.Circle(), placed[k].Circle(), DistanceBuffer)
    {
      var o := placed[i];
      var dx := test.collisionX - o.collisionX;
      var dy := test.collisionY - o.collisionY;
      var distance := hypot(dy, dx);
      var sumOfRadii := test.collisionRadius + o.collisionRadius + DistanceBuffer;
      HypotBelow(hypot, test.Circle(), o.Circle(), DistanceBuffer);
      if distance < sumOfRadii {
        overlap := true;
      }
    }
  }

  /** The game as the page loads it, on the 1280 by 720 canvas: whatever the
      draws, every number of `init` iterations leaves at most ten obstacles,
      each in the window with its circle inside the area below the top margin,
      and every pair separated by the buffer. */
  lemma LoadedGame(draw: nat -> Candidate, hypot: (real, real) -> real, n: nat)
    requires IsHypot(hypot)
    ensures var g := NewGame(CanvasWidth, CanvasHeight);
      var placed := Placements(g, draw, hypot, n);
      && |placed| <= NumberOfObstacles
      && Packed(g, placed)
      && forall i :: 0 <= i < |placed| ==> CircleInside(placed[i], CanvasWidth, CanvasHeight, TopMargin)
  {
    var g := NewGame(CanvasWidth, CanvasHeight);
    PlacementsPacked(g, draw, hypot, n);
  }

  /** One animation frame's update: the player seeks the game's mouse and is
      swept against the game's obstacles; the obstacles and the mouse are left
      as they were. */
  function Frame(g: Game, hypot: (real, real) -> real): (r: Outcome<Game>)
    requires IsHypot(hypot)
    ensures r.Ok? ==> r.value == g.(player := r.value.player)
    ensures r.Ok? ==> r.value.player.collisionRadius == g.player.collisionRadius
    ensures r.Ok? && |g.obstacles| > 0 ==>
      !Overlapping(r.value.player.Circle(), g.obstacles[|g.obstacles| - 1].Circle())
    ensures r.Coincident? ==> r.obstacle < |g.obstacles|
  {
    match Update(g.player, g.mouse, g.obstacles, hypot)
    case Ok(p) => Ok(g.(player := p))
    case Coincident(k) => Coincident(k)
  }

  /** Once `numberOfObstacles` are placed, further iterations change nothing:
      the loop guard stops every later attempt. */
  lemma {:induction false} PlacementsStable(g: Game, draw: nat -> Candidate, hypot: (real, real) -> real, m: nat, n: nat)
    requires IsHypot(hypot)
    requires m <= n
    ensures |Placements(g, draw, hypot, m)| >= g.numberOfObstacles ==>
      Placements(g, draw, hypot, n) == Placements(g, draw, hypot, m)
    decreases n
  {
    if m < n {
      PlacementsStable(g, draw, hypot, m, n - 1);
    }
  }

  /** Where the `init` loop stops, after `m` iterations, the iterations it
      skips up to `MaxAttempts` would give the same obstacles. */
  lemma PlacementsSettled(g: Game, draw: nat -> Candidate, hypot: (real, real) -> real, m: nat)
    requires IsHypot(hypot)
    ensures |Placements(g, draw, hypot, m)| >= g.numberOfObstacles || m == MaxAttempts ==>
      forall n :: m <= n <= MaxAttempts ==> Placements(g, draw, hypot, n) == Placements(g, draw, hypot, m)
  {
    forall n | m <= n <= MaxAttempts
      ensures |Placements(g, draw, hypot, m)| >= g.numberOfObstacles || m == MaxAttempts ==>
        Placements(g, draw, hypot, n) == Placements(g, draw, hypot, m)
    {
      PlacementsStable(g, draw, hypot, m, n);
    }
  }

  /** A frame is `Update` applied to the game's player, mouse and obstacles:
      it succeeds exactly when `Update` does, then holds `Update`'s player, and
      otherwise reports the same obstacle. */
  lemma FrameIsUpdate(g: Game, hypot: (real, real) -> real)
    requires IsHypot(hypot)
    ensures Frame(g, hypot).Ok? <==> Update(g.player, g.mouse, g.obstacles, hypot).Ok?
    ensures Frame(g, hypot).Ok? ==> Frame(g, hypot).value.player == Update(g.player, g.mouse, g.obstacles, hypot).value
    ensures Frame(g, hypot).Coincident? ==> Frame(g, hypot).obstacle == Update(g.player, g.mouse, g.obstacles, hypot).obstacle
  {
  }
}
