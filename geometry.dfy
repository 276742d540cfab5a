/**
 * Grid and position helpers of the maze generator: stepping a number of
 * cells along one of the four cardinal directions, and the bounds test
 * that decides whether a carve target may be used.
 *
 * Directions are ordinals: 0 is up (y decreases), 1 is right (x increases),
 * 2 is down (y increases) and 3 is left (x decreases).
 */
module Geometry {

  datatype Pos = Pos(x: int, y: int)

  /** The only failure of the helpers: a direction outside [0, 4). */
  datatype Error = IndexError

  datatype Result<T> = Ok(value: T) | Err(error: Error)

  predicate IsDirection(direction: int) {
    0 <= direction < 4
  }

  function Abs(n: int): nat {
    if n < 0 then -n else n
  }

  /** The position `distance` cells away from (x, y) in `direction`. */
  function GetPosition(x: int, y: int, direction: int, distance: int): (r: Result<Pos>)
    ensures r.Err? <==> !IsDirection(direction)
    ensures r.Err? ==> r.error == IndexError
  {
    if direction == 0 then Ok(Pos(x, y - distance))
    else if direction == 1 then Ok(Pos(x + distance, y))
    else if direction == 2 then Ok(Pos(x, y + distance))
    else if direction == 3 then Ok(Pos(x - distance, y))
    else Err(IndexError)
  }

  /**
   * A move in a valid direction keeps x when vertical and y when
   * horizontal, and covers exactly `distance` cells.
   */
  lemma GetPositionAxis(x: int, y: int, direction: int, distance: int)
    requires IsDirection(direction)
    ensures var r := GetPosition(x, y, direction, distance).value;
      && ((direction == 0 || direction == 2) ==> r.x == x)
      && ((direction == 1 || direction == 3) ==> r.y == y)
      && Abs(r.x - x) + Abs(r.y - y) == Abs(distance)
  {
  }

  /** The direction that undoes a move in `direction`. */
  function Opposite(direction: int): (r: int)
    requires IsDirection(direction)
    ensures IsDirection(r) && r != direction && r % 2 == direction % 2
  {
    (direction + 2) % 4
  }

  /** A cell of a `width` x `height` grid, as an index into it. */
  predicate InGrid(p: Pos, width: int, height: int) {
    0 <= p.x < width && 0 <= p.y < height
  }

  /**
   * The bounds test of the carver. It is asymmetric: coordinate 0 is
   * refused on both axes, while width - 1 and height - 1 are accepted.
   */
  function CheckPosition(p: Pos, width: int, height: int): (ok: bool)
    ensures ok <==> InGrid(p, width, height) && p.x != 0 && p.y != 0
  {
    p.x > 0 && p.y > 0 && p.x < width && p.y < height
  }

  /** Stepping back the same distance in the opposite direction returns to the start. */
  lemma GetPositionRoundTrip(x: int, y: int, direction: int, distance: int)
    requires IsDirection(direction)
    ensures var there := GetPosition(x, y, direction, distance).value;
            GetPosition(there.x, there.y, Opposite(direction), distance) == Ok(Pos(x, y))
  {
  }

  /** Moves along one direction add up: m cells then n cells is m + n cells. */
  lemma GetPositionAdditive(x: int, y: int, direction: int, m: int, n: int)
    requires IsDirection(direction)
    ensures var mid := GetPosition(x, y, direction, m).value;
            GetPosition(mid.x, mid.y, direction, n) == GetPosition(x, y, direction, m + n)
  {
  }

  /** The one-cell neighbour lies halfway between a cell and its two-cell neighbour. */
  lemma GetPositionMidway(x: int, y: int, direction: int)
    requires IsDirection(direction)
    ensures var one := GetPosition(x, y, direction, 1).value;
            var two := GetPosition(x, y, direction, 2).value;
            one == Pos((x + two.x) / 2, (y + two.y) / 2)
  {
  }

  /**
   * The boundary policy on a grid of at least 2 x 2 cells: the low edges
   * are refused and the far corner is accepted.
   */
  lemma CheckPositionEdges(width: int, height: int, p: Pos)
    requires width >= 2 && height >= 2
    ensures p.x == 0 || p.y == 0 ==> !CheckPosition(p, width, height)
    ensures CheckPosition(Pos(width - 1, height - 1), width, height)
  {
  }
}
