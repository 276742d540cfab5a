# Recursive maze carver

This project models the core of `maze_generator.py` and proves properties of it. That core is a depth-first recursive carver. It paints a path into a `width` x `height` image and keeps a record of the farthest point it reached. When the carve is over, it paints the farthest point red and then the start blue.

- `geometry.dfy` (module `Geometry`) holds the pure helpers:
  - `get_position` steps a number of cells in one of the four directions. Direction 0 is up, 1 right, 2 down and 3 left. Any other direction raises `IndexError`, which the model returns as an error value.
  - `check_position` is the bounds test. It refuses coordinate 0 on both axes and accepts `width - 1` and `height - 1`.
- `walk.dfy` (module `Walk`) is the specification side of the carver:
  - a `Visit` records one call of `create_path` that got past the depth cap. It holds the call's cell, its depth, the index of the calling visit and that caller's cell;
  - `FarthestMark` computes the farthest-point record from the visits. It is a fold that replaces the record only on a strictly greater depth;
  - `CarveTree` states what a sequence of visits must look like;
  - a `Step` records one call of `stamp`: the cell, the direction, the calling visit and the index of the visit it leads to. `StampLog` states how the stamps tie to the visits: each aims at a cell no earlier stamp painted, and the calls they lead to come in the order of the stamps. `Painted` gives the cells the stamps paint;
  - `Rounds` gives the order in which one call tries the four directions, and `Own` the directions of one call's stamps in the order it made them.
- `carver.dfy` (module `Carver`) is the imperative part, a class `Carver`. It holds:
  - the image as an `array2<Cell>`, indexed `grid[y, x]`;
  - the three farthest-point globals as fields;
  - the random draws as an injected source `rolls`, with a counter `drawn`. Draw `n` reduced into `[lo, hi)` is `lo + rolls(n) % (hi - lo)`.

  `create_path` is split into four methods, one per phase of a call:
  - `Reach` updates the farthest point;
  - `Bend` makes the optional turn;
  - `Explore` runs the four-round direction loop;
  - `Branch` is one round of that loop. `Advance` is a round that stamps and recurses, and `StampTowards` is its stamp.

  `create_maze` is `Carve` followed by the two marks.

Two behaviours of the code worth noting:
- The farthest-point record starts at cell (0, 0) at depth 0, as the globals are initialised. It does not start at the start cell.
- The start cell is not painted as path at depth 0. It becomes path only through a stamp. So on a grid where no target passes the bounds test, only the final marks touch it. `CarvedExcept(start)` states this exception.

The ghost state of the class is a proof device and does not exist in the source:
- `visits`, the calls of `create_path`;
- `steps`, the calls of `stamp`;
- `painted`, the cells those stamps painted.

The ghost fields of a `Visit` (`parent`, `from`) and the ghost arguments of the carving methods are proof devices too. The invariant `ShowsPainted` says that the image is path exactly on the painted cells and black everywhere else. It is how the carving methods state their whole effect on the image.

## Model

| member | source | states |
|---|---|---|
| Geometry.GetPosition | maze_generator.py:130-148 | it fails with `IndexError` exactly when the direction is outside [0, 4) |
| Geometry.GetPositionAxis | maze_generator.py:138-145 | a vertical direction keeps x and a horizontal one keeps y; the move covers exactly `distance` cells |
| Geometry.Opposite | maze_generator.py:130-148 | the direction two quarter turns away is a different direction on the same axis |
| Geometry.GetPositionRoundTrip | maze_generator.py:138-145 | stepping `distance` cells in direction d and then `distance` cells in (d + 2) % 4 returns to the start |
| Geometry.GetPositionAdditive | maze_generator.py:138-145 | m cells and then n cells in one direction is the same as m + n cells |
| Geometry.GetPositionMidway | maze_generator.py:124-128 | the one-step cell that `stamp` paints lies halfway between the cell and the two-step cell |
| Geometry.CheckPosition | maze_generator.py:150-154 | the test holds iff the position is inside the image and neither coordinate is 0 |
| Geometry.CheckPositionEdges | maze_generator.py:150-154 | on an image of at least 2 x 2, every position on the x = 0 or y = 0 edge is refused and (width - 1, height - 1) is accepted |
| Walk.FarthestIsMaximum | maze_generator.py:84-88 | the recorded depth is non-negative and at least the depth of every call |
| Walk.FarthestIsFirstReached | maze_generator.py:84-88 | the record is either the initial (0, 0, 0) or the cell and depth of a call that was the first to reach that depth (first writer wins on ties) |
| Walk.FarthestGrows | maze_generator.py:84-88 | more calls never lower the recorded depth |
| Walk.FarthestKeptOnTies | maze_generator.py:85-88 | calls no deeper than the record leave the record exactly as it was |
| Walk.FarthestBounded | maze_generator.py:81-88 | when every call is within a depth bound, so is the record; with the cap of 900 the record never exceeds 900 |
| Walk.RootedCarve | maze_generator.py:51-59 | in a carve whose only first call is at the start, every call shares the start's parity; the record is at least every call's depth, and it is the origin at depth 0 or the first call to reach its depth, a cell of the image within the cap |
| Walk.CarveTreeAppend | maze_generator.py:101-111 | a call that may follow the calls so far extends the carve tree |
| Walk.CarveTreeCells | maze_generator.py:81-104 | every call of a carve stands inside the image within the depth cap; exactly the depth-0 calls have no caller, and every other call stands on a cell that passed the bounds test |
| Walk.CarveTreeLinks | maze_generator.py:101-111 | every call other than a first one stands two cells along one axis from its caller's cell, one level deeper |
| Walk.CarveTreeDistinct | maze_generator.py:104-111 | no two calls of a carve stand on the same cell |
| Walk.CarveTreeParity | maze_generator.py:101-111 | when the only first call stands on the start, every call lies an even number of cells from the start on both axes |
| Walk.StampLogAppend | maze_generator.py:104-105 | a stamp made by a recorded call towards a target that passed the bounds test extends a log whose stamps all have their call |
| Walk.StampLogRecord | maze_generator.py:105-111 | recording the call at the target of the latest stamp, made by that stamp's caller, keeps the log and gives that stamp its call |
| Walk.StampLogFacts | maze_generator.py:104-111 | in a stamp log, every stamp was made by a recorded call on its cell towards a target that passed the bounds test; the call it led to stands on that target with the stamp's caller as its caller, unless the caller was at the cap; every stamp but the latest has its call |
| Walk.StampLogAt | maze_generator.py:104-111 | the same facts for one given stamp of the log |
| Walk.StampFresh | maze_generator.py:104 | every stamp aims at a cell that no earlier stamp painted, so a target is never already path |
| Walk.NextGrows | maze_generator.py:97-111 | along the log, the index of the call a stamp leads to never decreases |
| Walk.PaintedKeeps | maze_generator.py:124-128 | the cells a stamp paints stay among the painted cells of every later prefix of the log |
| Walk.CalleesInOrder | maze_generator.py:97-111 | of two stamps whose callers are below the cap, the earlier one's call is recorded strictly before the later one's, stands on its target and has the stamp's caller as its caller; with `Explore`'s ensures this puts the callees of one call in the order of its rounds |
| Walk.MidpointsMeet | maze_generator.py:124-128 | two stamps from cells of the same parity share their middle cell only when they are the same move or the same move reversed |
| Walk.StampPairApart | maze_generator.py:104-105 | in a log whose calls share the root's parity, two distinct stamps have different middle cells |
| Walk.StampsApart | maze_generator.py:97-111 | in a carve rooted at the start, no two stamps share their middle cell, so two carved segments meet at most at their end cells |
| Walk.OwnAppend | maze_generator.py:97-111 | a call's own stamps in a log split in two are its stamps in the first part followed by its stamps in the second |
| Walk.OwnNone | maze_generator.py:97-111 | stamps made by other calls give a call no stamps of its own |
| Walk.OwnAfter | maze_generator.py:105-111 | stamps made by the deeper calls of a recursion leave the caller's own stamps as they were before the recursion |
| Walk.SelectStep | maze_generator.py:97-105 | one more round appends its direction to the selected directions exactly when the round stamped |
| Walk.TriedDirection | maze_generator.py:97-98 | the direction tried in each round is a valid direction |
| Walk.TriedOrder | maze_generator.py:97-98 | the cumulative update makes the four rounds try d, d + 1, d + 3 and d + 2 (mod 4), which is not clockwise |
| Walk.TriedStep | maze_generator.py:97-98 | the loop's own update `(direction + i) % 4` yields the direction of round i |
| Walk.TriedEachOnce | maze_generator.py:97-98 | the four rounds are pairwise distinct, and a value is among them iff it is a direction, so each direction is tried exactly once |
| Carver.Carver.constructor | maze_generator.py:15-37 | a fresh all-black image of the given size, with the farthest point at (0, 0, 0), no draws taken and nothing stamped |
| Carver.Carver.RandRange | maze_generator.py:91-92 | a draw lies in [lo, hi) and uses up exactly one value of the random source |
| Carver.Carver.Stamp | maze_generator.py:116-128 | exactly the cell and, for a valid direction, its one-step and two-step cells become path, and every other cell is unchanged; an invalid direction fails with `IndexError` after the first cell is painted |
| Carver.Carver.Reach | maze_generator.py:84-88 | the call is recorded; the farthest point becomes this cell and depth iff the depth is strictly greater, and otherwise stays as it was |
| Carver.Carver.Bend | maze_generator.py:90-93 | a first draw other than 0 keeps the heading; a first draw of 0 adds a second draw from {-1, 0, 1} modulo 4; the new heading is the old one or a direction at most a quarter turn from it |
| Carver.Carver.StampTowards | maze_generator.py:104-105 | exactly the cell, the cell between and the target become path and every other cell is unchanged; the stamp is logged as made by the calling visit, the painted cells grow by those three, and it is the caller's next own stamp |
| Carver.Carver.Branch | maze_generator.py:100-111 | the round stamps iff the two-step cell passes the bounds test and was not path; a refused round changes nothing; a stamping round logs the stamp first and, below the cap, records the call at the target, one level deeper, with this call as its caller; afterwards the two-step cell is path or refused, and the image is still path exactly on the stamped cells |
| Carver.Carver.Advance | maze_generator.py:105-111 | the stamp towards the target is logged first, the call at the target is recorded next below the cap, every call it makes is deeper, the target is painted, and the calling visit's own stamps grow by this direction only |
| Carver.Carver.Explore | maze_generator.py:97-111 | the directions the call stamped are, in order, those rounds of d, d + 1, d + 3, d + 2 whose round stamped; afterwards every two-step neighbour of the call and of every later call that passes the bounds test is path, and the image is path exactly on the stamped cells |
| Carver.Carver.CreatePath | maze_generator.py:69-111 | past depth 900 nothing changes; otherwise the call is recorded at its depth, every call below it is deeper, every stamp since was made by it or a later call, every two-step neighbour of it and of every later call that passes the bounds test is path, the image is path exactly on the stamped cells, and the farthest depth never decreases and reaches this call's depth |
| Carver.Carver.Carve | maze_generator.py:51-56 | the start is the only depth-0 call; every call stands on path, save the start when nothing was stamped, and so does the cell between each call and its caller; every two-step neighbour of every call that passes the bounds test is path; the image is path exactly on the stamped cells |
| Carver.Carver.CreateMaze | maze_generator.py:51-59 | every call shares the start's parity; the farthest point is at least as deep as every call, and is (0, 0) at depth 0 or the first call to reach the greatest depth, at most 900 deep and inside the image; no two stamps share their middle cell; the start ends blue and a distinct farthest point red; every other call stands on path, every two-step neighbour of a call that passes the bounds test is path or a mark, and every other cell is path when stamped and unchanged otherwise |

## Left out

- OpenCV output and display (`cv.imwrite`, `cv.imshow`, `cv.resize`, `cv.waitKey`, `cv.destroyAllWindows`) and the `show_steps` branch. These are foreign calls and user interface with no effect on the grid.
- The message that `get_position` prints before it raises `IndexError` (maze_generator.py:147). It is console output; the model keeps only the error value.
- numpy allocation of the image. The constructor allocates a fresh Dafny array of `Unvisited` cells instead.
- The interactive `main` loop: console input, validation of the parameters, and the file name. Two of its quirks are left out with it:
  - the random start branches assign `tmp` rather than the start coordinate;
  - the globals are never reset between mazes. `CreateMaze` requires a fresh carver.
- Python's `random` module. It is replaced by the injected source `rolls`, so only the ranges of the draws are modelled. The probabilities of a turn are not.
- Colour tuples and the vector comparison `.all()`. They are collapsed to the four-valued `Cell`, with `Path` for the path colour.
- Python's negative indices, which wrap around to the far end of an axis:
  - `Carver.Carver.Stamp` requires its cell and its two-step cell inside the image. It is only called after the bounds test, so a wrapped write never happens in the carver.
  - `Carver.Carver.CreatePath` and `Carver.Carver.CreateMaze` require the start inside the image. The source's input loop guarantees this for a typed start.
- `Carver.Carver.CreatePath` requires more than the source states. The extra requires say that the cell is fresh, that it is linked to its caller by the latest stamp, that the cells carved so far are path, and that the image is path exactly on the stamped cells. These hold at the first call and at every recursive call, and they are how the model carries the recursion's invariant.
- `Carver.Carver.Carve` and `Carver.Carver.CreateMaze` require an all-black image, as `create_image` makes it. The source also accepts an image that is already partly path; the model does not cover that case.
- The recursion depth cap of the Python interpreter itself. Only the explicit cap of 900 is modelled.
