/**
 An obstacle of the game: a circle of radius 60 at a random position, drawn as
 one 250-by-250 cell of a 4-by-3 sprite sheet, with the picture centred on the
 circle horizontally and raised 70 units above it.

 The constructor's four calls to `Math.random` (x, y, column, row, in that order)
 are a `Candidate` of four draws supplied by the caller.
 */
module Obstacles {
  import opened Geometry

  const CollisionRadius: real := 60.0
  const SpriteWidth: real := 250.0
  const SpriteHeight: real := 250.0
  /** How far the picture sits above the collision circle. */
  const SpriteLift: real := 70.0
  /** Columns and rows of the sprite sheet. */
  const FrameColumns: int := 4
  const FrameRows: int := 3

  /** The four random draws one obstacle consumes. */
  datatype Candidate = Candidate(x: real, y: real, column: real, row: real)

  /** A draw of `Math.random`: a real in [0, 1). */
  predicate IsDraw(u: real)
  {
    0.0 <= u < 1.0
  }

  predicate ValidCandidate(c: Candidate)
  {
    IsDraw(c.x) && IsDraw(c.y) && IsDraw(c.column) && IsDraw(c.row)
  }

  datatype Obstacle = Obstacle(
    collisionX: real, collisionY: real, collisionRadius: real,
    spriteX: real, spriteY: real, width: real, height: real,
    frameX: int, frameY: int)
  {
    /** The collision circle. */
    function Circle(): Geometry.Circle
    {
      Geometry.Circle(collisionX, collisionY, collisionRadius)
    }
  }

  /** The `Obstacle` constructor for a game area of `gameWidth` by `gameHeight`. */
  function NewObstacle(gameWidth: real, gameHeight: real, c: Candidate): (o: Obstacle)
    ensures o.collisionRadius == CollisionRadius
    ensures o.width == SpriteWidth && o.height == SpriteHeight
    // the picture's centre is the circle's centre, moved up by the lift
    ensures o.spriteX + o.width / 2.0 == o.collisionX
    ensures o.spriteY + o.height / 2.0 == o.collisionY - SpriteLift
    // with genuine draws, the centre lies on the game area and the frame is a cell of the sheet
    ensures ValidCandidate(c) && gameWidth > 0.0 ==> 0.0 <= o.collisionX < gameWidth
    ensures ValidCandidate(c) && gameHeight > 0.0 ==> 0.0 <= o.collisionY < gameHeight
    ensures ValidCandidate(c) ==> 0 <= o.frameX < FrameColumns && 0 <= o.frameY < FrameRows
    // the draws in source order: x and y place the centre, column and row pick the frame
    ensures o.collisionX == c.x * gameWidth && o.collisionY == c.y * gameHeight
    ensures o.frameX == Cell(c.column, FrameColumns) && o.frameY == Cell(c.row, FrameRows)
  {
    var collisionX := c.x * gameWidth;
    var collisionY := c.y * gameHeight;
    ScaledDraw(c.x, gameWidth);
    ScaledDraw(c.y, gameHeight);
    Obstacle(
      collisionX, collisionY, CollisionRadius,
      collisionX - SpriteWidth * 0.5,
      collisionY - SpriteHeight * 0.5 - SpriteLift,
      SpriteWidth, SpriteHeight,
      Cell(c.column, FrameColumns),
      Cell(c.row, FrameRows))
  }

  /** A draw scaled by a positive extent lies in [0, extent). */
  lemma ScaledDraw(u: real, extent: real)
    ensures IsDraw(u) && extent > 0.0 ==> 0.0 <= u * extent < extent
  {
    if IsDraw(u) && extent > 0.0 {
      assert (1.0 - u) * extent > 0.0;
    }
  }

  /** `Math.floor(u * cells)`: the cell of a row of `cells` that a draw picks. */
  function Cell(u: real, cells: int): (k: int)
    ensures k as real <= u * cells as real < k as real + 1.0
    ensures IsDraw(u) && cells > 0 ==> 0 <= k < cells
  {
    ScaledDraw(u, cells as real);
    (u * cells as real).Floor
  }

  /** The window `init` admits obstacles in: the picture fits horizontally in
      the game area, and the centre keeps a margin of two radii from the top
      margin and from the bottom edge. */
  predicate InPlayArea(o: Obstacle, gameWidth: real, gameHeight: real, topMargin: real)
  {
    var margin := o.collisionRadius * 2.0;
    && 0.0 < o.spriteX
    && o.spriteX < gameWidth - o.width
    && topMargin + margin < o.collisionY
    && o.collisionY < gameHeight - margin
  }

  /** The collision circle lies strictly inside the game area, below the top margin. */
  predicate CircleInside(o: Obstacle, gameWidth: real, gameHeight: real, topMargin: real)
  {
    && 0.0 < o.collisionX - o.collisionRadius
    && o.collisionX + o.collisionRadius < gameWidth
    && topMargin < o.collisionY - o.collisionRadius
    && o.collisionY + o.collisionRadius < gameHeight
  }
}
