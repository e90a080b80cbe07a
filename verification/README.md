# Circle geometry of the fcc-js-game player and obstacles

This project models the game logic of `script.js`, a small browser game. A
circular player chases the mouse across a canvas. Circular obstacles are
packed onto the canvas once, when the page loads. The model covers three
parts:

- `checkCollsiion`, the circle-overlap test.
- `Game.init`, which packs the obstacles by rejection sampling, together with
  the `Obstacle` constructor.
- `Player.update`, which moves the player one step toward the mouse and then
  pushes it out of every obstacle it collides with, one obstacle at a time.

Everything is stated over exact reals:

- `Math.hypot` is a parameter `hypot`. `Geometry.IsHypot` pins it down as the
  non-negative square root of `x*x + y*y`.
- Comparisons of distances are restated on squared distances by
  `Geometry.Closer`. Contracts speak in those terms, so they mean the same for
  any such `hypot`.
- `Math.random` is a supplied stream `draw: nat -> Candidate`. A `Candidate`
  holds the four draws one `Obstacle` constructor makes, in source order:
  x, y, column and row.

Modules:

- `Geometry` (`geometry.dfy`): circles, squared distance, `CheckCollision`.
- `Obstacles` (`obstacle.dfy`): the `Obstacle` record and constructor, and
  the play window.
- `Players` (`player.dfy`): the `Player` record and constructor, the seek
  step, the push-out sweep and `Update`.
- `Games` (`game.dfy`): the `Game` record and constructor, and `init` in two
  forms. `Placements` is a recursive function over the number of attempts.
  `Init` is the loop itself, and is proved to compute `Placements`.

Three details of the code shape the model:

- Collision resolution handles the obstacles in array order and pushes the
  player out of each colliding one in turn. For an arbitrary obstacle list only
  the last push is guaranteed: a push can land the player inside an obstacle
  placed closer to the pushing one than `init` ever places two. `Players.Resolve`
  states what holds for any list.
- The push is not aimed at the nearest colliding obstacle. Every obstacle is
  visited once, in the order `init` placed it.
- `init` rejects a candidate for overlap only when its distance to a placed
  obstacle is strictly below the two radii plus 100, so a candidate in the
  window at exactly that distance is kept.

## Model

| member | source | states |
|---|---|---|
| Geometry.CheckCollision | script.js:224-241 | The flag is set exactly when the circles overlap: squared centre distance below the squared sum of radii. The distance is the non-negative root of the squared distance. The offset is `a - b`. Touching circles (distance equal to the sum) do not collide. |
| Geometry.CheckCollisionSymmetric | script.js:224-241 | Swapping the arguments negates `dx` and `dy`. It keeps the distance, the sum of radii and the collision flag. |
| Geometry.HypotBelow | script.js:197-201 | A `hypot` distance below `r1 + r2 + gap` is the same as the squared-distance test `Closer`. |
| Obstacles.NewObstacle | script.js:94-111 | The centre is the x draw times the width and the y draw times the height. The frame is `Cell` of the column draw over 4 columns and of the row draw over 3 rows. Radius 60 and a 250 by 250 picture. The picture is centred on the circle horizontally and sits 70 above it. With draws in [0,1), the centre lies in [0, width) by [0, height), and the frame is a cell of the 4 by 3 sheet. |
| Obstacles.Cell | script.js:109-110 | The result is the floor of `u * cells`: the greatest integer not above it. For a draw in [0,1) it is a cell index in [0, cells). |
| Players.NewPlayer | script.js:12-22 | The player starts at the centre of the area, at rest, with no recorded offset to the mouse, radius 30 and speed modifier 20. |
| Players.Seek | script.js:63-76 | The offset to the mouse is recorded. For a non-negative speed modifier, the player stops exactly when the mouse is within one step, and a stopped player stays in place. Otherwise the velocity is a unit vector parallel to the offset and pointing at the mouse. The move has length `speedModifier`, and the remaining distance to the mouse is the old distance minus `speedModifier`. |
| Players.Stride | script.js:67-76 | The moving branch: unit velocity along the offset, a step of length `speedModifier`, and the remaining distance to the mouse shortened by it. |
| Players.SeekAtMouse | script.js:63-73 | With the mouse on the player, the velocity is zero and the player stays put, whatever the speed modifier. |
| Players.PushOut | script.js:80-88 | A non-colliding obstacle leaves the player unchanged. A colliding one with a distinct centre moves only the position. The new centre is at exactly `sumOfRadii + 1` from the obstacle, on the ray from the obstacle through the old centre, and no longer collides. Coincident centres, where the source divides 0 by 0, are reported as `Coincident`. |
| Players.Reposition | script.js:84-87 | `obstacle + (sumOfRadii + 1) * unit(player - obstacle)` is at distance `sumOfRadii + 1`, on that ray and clear of the obstacle. |
| Players.Resolve | script.js:79-89 | The sweep changes only the position. Its result is one of two things. It is the unmoved player, when no obstacle collided. Or it is the place of its last push: exactly `sumOfRadii + 1` from that obstacle and clear of every obstacle after it. Either way it is clear of the last obstacle. A player clear of all obstacles is left unchanged. A `Coincident` index is a valid obstacle index. |
| Players.Update | script.js:63-89 | Everything but the position is what the seek step set. The result is either the seek position, clear of every obstacle, or the last push of the sweep. |
| Games.NewGame | script.js:133-145 | No obstacles, top margin 150, ten obstacles wanted. The player is centred, and the mouse is on the player and not pressed. |
| Games.NewGameAtRest | script.js:141-145 | The mouse starts on the player, so the first seek step leaves the player exactly as constructed. |
| Games.Overlap | script.js:191-205 | The flag is set exactly when the test obstacle is closer than the two radii plus 100 to some placed obstacle. |
| Games.TestOverlap | script.js:189-205 | The `forEach` loop computes the same flag; its loop invariant is the flag for the obstacles seen so far. |
| Games.Attempt | script.js:189-217 | One attempt never alters the placed obstacles and adds at most one. It adds one exactly when the test obstacle lies in the window and keeps the buffer from every placed obstacle. What it adds is the test obstacle. |
| Games.TryCandidate | script.js:189-217 | The loop body, after the test obstacle is built, computes `Attempt`. |
| Games.Placements | script.js:186-221 | After `n` iterations the original obstacles are a prefix of the result. At most `n` obstacles were added, and never more than `numberOfObstacles` when starting below it. |
| Games.AttemptKeepsPacked | script.js:207-217 | An attempt keeps the obstacles packed: all admitted by the window and pairwise separated by the buffer. |
| Games.PlacementsPacked | script.js:186-221 | Packing is a loop invariant of `init`: packed obstacles stay packed after any number of iterations. |
| Games.PlacementsPrefix | script.js:187-220 | Later iterations never alter the obstacles of earlier ones. |
| Games.PlacementsStable | script.js:187 | Once `numberOfObstacles` are placed, no later iteration changes the obstacles. |
| Games.PlacementsStep | script.js:210-218 | Each iteration either leaves the obstacles alone or appends the obstacle built from its own draw. |
| Games.PackedApart | script.js:191-203 | Any two distinct obstacles of a packed list, in either order, are at least `r1 + r2 + 100` apart as `checkCollsiion` measures, and so do not collide. |
| Games.Init | script.js:186-221 | The loop terminates after at most 500 attempts. It stops only when the count is reached or the attempts run out. It returns exactly `Placements` for the attempts made, and the attempts it skipped would have changed nothing: `Placements` gives the same obstacles for every number of attempts up to 500. It keeps the original obstacles as a prefix, and ends with at most `numberOfObstacles`. From packed obstacles it ends packed, with every circle inside the area and below the top margin. |
| Games.LoadedGame | script.js:252-253 | On the 1280 by 720 canvas, any number of `init` iterations from a new game leaves at most ten obstacles. They are packed, and every circle lies inside the area below the top margin. |
| Games.Frame | script.js:243-249 | One frame changes only the player and keeps its radius. The obstacles and the mouse are unchanged, and the new player is clear of the last obstacle. |
| Games.FrameIsUpdate | script.js:243-249 | A frame succeeds exactly when `Update` on the game's player, mouse and obstacles does. The frame's player is then `Update`'s result; otherwise both report the same obstacle. |

## Left out

- Drawing is left out: `draw`, `render`'s drawing calls, `animate`, `requestAnimationFrame`, sprite images and the canvas context. None of it affects the state.
- The `mousedown`, `mouseup` and `mousemove` listeners are browser event wiring. `mousemove` moves the mouse only while it is pressed. The model takes the mouse as an input to each frame.
- `Math.random` is a supplied stream of draws. Probabilities, such as how often `init` under-fills, are not modelled.
- `Math.hypot` and IEEE-754 doubles are modelled as exact reals. Rounding, overflow and NaN propagation are not modelled.
- Players.PushOut: where the player's centre coincides with a colliding obstacle's centre, the source computes a NaN position (0 / 0). The model stops the sweep with `Coincident` instead.
- Players.Seek: the `|| 0` guard is modelled as a zero velocity for 0 / 0. Over the reals that is the only quotient that gives NaN.
- Players.Resolve: does not state that the player ends clear of every obstacle. For an arbitrary obstacle list the code does not guarantee it: a push out of one obstacle can land the player inside an earlier one that lies closer to it than `init` places obstacles. With `init`'s spacing of at least 220 between centres, a pushed radius-30 player is 91 from the pushing obstacle and so at least 129 from every other; that consequence, which needs the triangle inequality, is not proved here.
