/**
 * The recursive maze carver: a grid of cells that the carver paints in
 * place, the farthest-point record kept beside it, and the source of the
 * random draws that bend the walk.
 */
module Carver {
  import opened Geometry
  import opened Walk

  /**
   * The colour of a grid cell: unvisited (black), carved path (white), and
   * the start (blue) and farthest (red) marks painted after carving.
   */
  datatype Cell = Unvisited | Path | Start | Farthest

  /** A call deeper than this returns at once. */
  const MaxDepth: nat := 900

  /** What `stamp` ends with: normally, or with the error raised by the direction lookup. */
  datatype Outcome = Pass | Fail(error: Error)

  class Carver {
    /** The image, indexed as grid[y, x]: Length0 is the height, Length1 the width. */
    const grid: array2<Cell>
    /** A turn is considered once in this many steps on average. */
    const straightness: int
    /** The random draws, in order; draw n is rolls(n) reduced into the requested range. */
    const rolls: nat -> nat
    /** How many draws have been taken. */
    var drawn: nat
    var furthestDistance: int
    var furthestX: int
    var furthestY: int
    /** Every call of CreatePath that got past the depth cap, in call order. */
    ghost var visits: seq<Visit>
    /** Every stamp the carve made, in order. */
    ghost var steps: seq<Step>
    /** The cells those stamps painted. */
    ghost var painted: set<Pos>

    function Width(): int {
      grid.Length1
    }

    function Height(): int {
      grid.Length0
    }

    /**
     * The calls form a carve tree, the farthest point is the record of those
     * calls, every stamp was made by a recorded call and leads to the next
     * recorded call, and only the last stamp may still wait for its call.
     */
    ghost predicate Valid()
      reads this
    {
      && straightness >= 1
      && Width() >= 1 && Height() >= 1
      && CarveTree(visits, Width(), Height(), MaxDepth)
      && Mark(furthestX, furthestY, furthestDistance) == FarthestMark(visits)
      && painted == Painted(steps)
      && StampLog(visits, steps, Width(), Height(), MaxDepth)
    }

    /** No stamp waits for its call: the only one that could, the latest, is settled. */
    ghost predicate AllSettled()
      reads this
    {
      steps != [] ==> Settled(visits, steps[|steps| - 1], MaxDepth)
    }

    ghost predicate IsPath(p: Pos)
      reads grid
    {
      InGrid(p, Width(), Height()) && grid[p.y, p.x] == Path
    }

    /**
     * The image shows exactly the stamped cells as path and every other cell
     * black, and every stamped cell lies inside the image.
     */
    ghost predicate ShowsPainted()
      reads this, grid
    {
      && (forall p :: p in painted ==> InGrid(p, Width(), Height()))
      && (forall row, col :: 0 <= row < Height() && 0 <= col < Width() ==>
            grid[row, col] == if Pos(col, row) in painted then Path else Unvisited)
    }

    /**
     * Every call stands on a stamped cell, except possibly one at `skip`,
     * and the cell between each call and its caller is stamped.
     */
    ghost predicate CarvedExcept(visits: seq<Visit>, painted: set<Pos>, skip: Pos)
    {
      && (forall k :: 0 <= k < |visits| ==> At(visits[k]) == skip || At(visits[k]) in painted)
      && (forall k :: 0 <= k < |visits| && visits[k].parent >= 0 ==>
            Midpoint(visits[k].from, At(visits[k])) in painted)
    }

    /**
     * The cell two steps from (x, y) in direction d is stamped, or is refused
     * by the bounds test.
     */
    ghost predicate Covered(painted: set<Pos>, x: int, y: int, d: int)
    {
      IsDirection(d) &&
      var target := GetPosition(x, y, d, 2).value;
      CheckPosition(target, Width(), Height()) ==> target in painted
    }

    /** Every two-step neighbour of p that passes the bounds test is stamped. */
    ghost predicate Surrounded(painted: set<Pos>, p: Pos)
    {
      forall d :: IsDirection(d) ==> Covered(painted, p.x, p.y, d)
    }

    /**
     * Measured from the calls `v0` and the stamps `s0` made so far by a call
     * at depth `depth`, recorded as visit `me`: those calls and stamps are
     * kept, every later call is deeper and has every two-step neighbour
     * that passes the bounds test stamped, and every later stamp was made
     * by `me` or by a later call.
     */
    ghost predicate Since(v0: seq<Visit>, s0: seq<Step>, depth: int, me: int)
      reads this
    {
      && |v0| <= |visits| && visits[..|v0|] == v0
      && |s0| <= |steps| && steps[..|s0|] == s0
      && (forall k :: |v0| <= k < |visits| ==> visits[k].depth > depth && Surrounded(painted, At(visits[k])))
      && (forall j :: |s0| <= j < |steps| ==> steps[j].caller >= me)
    }

    /** Stamping the skipped cell moves the exception to any other cell. */
    lemma CarvedMoves(visits: seq<Visit>, painted: set<Pos>, a: Pos, b: Pos)
      requires CarvedExcept(visits, painted, a) && a in painted
      ensures CarvedExcept(visits, painted, b)
    {
    }

    /** A fresh black image of the given size, with the farthest point at (0, 0, 0). */
    constructor (width: int, height: int, straightness: int, rolls: nat -> nat)
      requires width >= 1 && height >= 1 && straightness >= 1
      ensures Valid() && fresh(grid)
      ensures Width() == width && Height() == height
      ensures this.straightness == straightness && this.rolls == rolls && drawn == 0
      ensures visits == [] && steps == []
      ensures furthestDistance == 0 && furthestX == 0 && furthestY == 0
      ensures forall row, col :: 0 <= row < height && 0 <= col < width ==> grid[row, col] == Unvisited
    {
      grid := new Cell[height, width]((i, j) => Unvisited);
      this.straightness := straightness;
      this.rolls := rolls;
      drawn := 0;
      furthestDistance, furthestX, furthestY := 0, 0, 0;
      visits := [];
      steps := [];
      painted := {};
    }

    /** A draw from [lo, hi). */
    method RandRange(lo: int, hi: int) returns (r: int)
      requires lo < hi
      modifies this`drawn
      ensures lo <= r < hi
      ensures r == lo + rolls(old(drawn)) % (hi - lo) && drawn == old(drawn) + 1
    {
      r := lo + rolls(drawn) % (hi - lo);
      drawn := drawn + 1;
    }

    /**
     * Paints the cell (x, y) and the next two cells in `direction` as path;
     * an invalid direction fails after the first cell is painted.
     */
    method Stamp(x: int, y: int, direction: int) returns (outcome: Outcome)
      requires InGrid(Pos(x, y), Width(), Height())
      requires IsDirection(direction) ==>
        InGrid(GetPosition(x, y, direction, 2).value, Width(), Height())
      modifies grid
      ensures outcome == if IsDirection(direction) then Pass else Fail(IndexError)
      ensures forall row, col :: 0 <= row < Height() && 0 <= col < Width() ==>
        grid[row, col] == if Pos(col, row) in StampCells(x, y, direction) then Path else old(grid[row, col])
    {
      grid[y, x] := Path;
      var one := GetPosition(x, y, direction, 1);
      if one.Err? {
        return Fail(one.error);
      }
      grid[one.value.y, one.value.x] := Path;
      var two := GetPosition(x, y, direction, 2);
      grid[two.value.y, two.value.x] := Path;
      outcome := Pass;
    }

    /**
     * One call of the recursive carver at (x, y), `depth` levels below the
     * first; `parent` is the index of the calling visit and `from` its cell,
     * proof devices. A recursive call follows the stamp that led to it.
     */
    method CreatePath(x: int, y: int, direction: int, depth: nat, ghost parent: int, ghost from: Pos)
      requires Valid()
      requires InGrid(Pos(x, y), Width(), Height())
      requires forall k :: 0 <= k < |visits| ==> At(visits[k]) != Pos(x, y)
      requires depth == 0 ==> parent == -1 && from == Pos(x, y) && AllSettled()
      requires depth > 0 ==>
        && 0 <= parent < |visits|
        && At(visits[parent]) == from
        && GetPosition(from.x, from.y, direction, 2) == Ok(Pos(x, y))
        && CheckPosition(Pos(x, y), Width(), Height())
        && visits[parent].depth + 1 == depth
        && |steps| > 0 && steps[|steps| - 1] == Step(from.x, from.y, direction, parent, |visits|)
        && Pos(x, y) in painted
        && Midpoint(from, Pos(x, y)) in painted
      requires CarvedExcept(visits, painted, Pos(x, y))
      requires ShowsPainted()
      modifies this, grid
      decreases MaxDepth + 1 - depth, 3
      ensures Valid() && AllSettled()
      ensures |old(visits)| <= |visits| && visits[..|old(visits)|] == old(visits)
      ensures |old(steps)| <= |steps| && steps[..|old(steps)|] == old(steps)
      // past the cap nothing happens
      ensures depth > MaxDepth ==> unchanged(this) && unchanged(grid)
      ensures depth <= MaxDepth ==>
        |old(visits)| < |visits| && visits[|old(visits)|] == Visit(x, y, depth, parent, from)
      // every call below this one is deeper, and every new stamp was made by one of the new calls
      ensures forall k :: |old(visits)| < k < |visits| ==> visits[k].depth > depth
      ensures forall j :: |old(steps)| <= j < |steps| ==> steps[j].caller >= |old(visits)|
      // exactly the stamped cells are painted
      ensures ShowsPainted() && old(painted) <= painted
      // every two-step neighbour of every new call that passes the bounds test ends up carved
      ensures forall k :: |old(visits)| <= k < |visits| ==> Surrounded(painted, At(visits[k]))
      ensures CarvedExcept(visits, painted, Pos(x, y))
      ensures old(furthestDistance) <= furthestDistance
      ensures depth <= MaxDepth ==> depth <= furthestDistance
    {
      if depth > MaxDepth {
        return;
      }
      ghost var me := |visits|;
      Reach(x, y, depth, parent, from);
      var dir := Bend(direction);
      ghost var entered := visits;
      ghost var taken := Explore(x, y, dir, depth, me);
      assert visits[me] == visits[..|entered|][me] == entered[me];
      PrefixChain(visits, entered, old(visits));
      assert steps[..|old(steps)|] == old(steps);
      forall k | |old(visits)| <= k < |visits|
        ensures Surrounded(painted, At(visits[k]))
      {
        if k == me {
          assert At(visits[k]) == Pos(x, y);
        }
      }
    }

    /**
     * The farthest-point update at the head of a call: the call is
     * recorded, and its cell becomes the farthest point only when it is
     * strictly deeper than the current one, so on a tie the earlier cell stays.
     */
    method Reach(x: int, y: int, depth: nat, ghost parent: int, ghost from: Pos)
      requires Valid()
      requires depth <= MaxDepth && InGrid(Pos(x, y), Width(), Height())
      requires forall k :: 0 <= k < |visits| ==> At(visits[k]) != Pos(x, y)
      requires depth == 0 ==> parent == -1 && from == Pos(x, y) && AllSettled()
      requires depth > 0 ==>
        && 0 <= parent < |visits|
        && At(visits[parent]) == from
        && TwoApart(from, Pos(x, y))
        && CheckPosition(Pos(x, y), Width(), Height())
        && visits[parent].depth + 1 == depth
        && |steps| > 0
        && var s := steps[|steps| - 1];
           s.caller == parent && s.next == |visits| &&
           GetPosition(s.x, s.y, s.direction, 2) == Ok(Pos(x, y))
      requires depth > 0 ==> Midpoint(from, Pos(x, y)) in painted
      requires CarvedExcept(visits, painted, Pos(x, y))
      modifies this`visits, this`furthestDistance, this`furthestX, this`furthestY
      ensures Valid() && AllSettled()
      ensures visits == old(visits) + [Visit(x, y, depth, parent, from)]
      ensures CarvedExcept(visits, painted, Pos(x, y))
      ensures old(furthestDistance) < depth ==>
        furthestDistance == depth && furthestX == x && furthestY == y
      ensures depth <= old(furthestDistance) ==>
        furthestDistance == old(furthestDistance) && furthestX == old(furthestX) && furthestY == old(furthestY)
    {
      ghost var v := Visit(x, y, depth, parent, from);
      CarveTreeAppend(visits, v, Width(), Height(), MaxDepth);
      StampLogRecord(visits, steps, v, Width(), Height(), MaxDepth);
      visits := visits + [v];
      if furthestDistance < depth {
        furthestDistance := depth;
        furthestX := x;
        furthestY := y;
      }
    }

    /**
     * The bend at the head of a call: when the first draw, from
     * [0, straightness), is 0, a second draw from {-1, 0, 1} turns the
     * heading by at most a quarter and brings it into [0, 4).
     */
    method Bend(direction: int) returns (dir: int)
      requires straightness >= 1
      modifies this`drawn
      ensures rolls(old(drawn)) % straightness != 0 ==> dir == direction && drawn == old(drawn) + 1
      ensures rolls(old(drawn)) % straightness == 0 ==>
        dir == (direction + rolls(old(drawn) + 1) % 3 - 1) % 4 && drawn == old(drawn) + 2
      ensures dir == direction || (IsDirection(dir) && (dir - direction) % 4 in {0, 1, 3})
    {
      dir := direction;
      var roll := RandRange(0, straightness);
      if roll == 0 {
        var turn := RandRange(-1, 2);
        dir := (dir + turn) % 4;
      }
    }

    /**
     * The direction loop of a call at (x, y), recorded as visit `me`: four
     * rounds, each adding the round counter to the heading and then trying
     * that direction. `taken` tells which rounds stamped.
     */
    method Explore(x: int, y: int, direction: int, depth: nat, ghost me: nat) returns (ghost taken: seq<bool>)
      requires Valid() && AllSettled()
      requires depth <= MaxDepth && InGrid(Pos(x, y), Width(), Height())
      requires me < |visits| && At(visits[me]) == Pos(x, y) && visits[me].depth == depth
      requires CarvedExcept(visits, painted, Pos(x, y))
      requires ShowsPainted()
      modifies this, grid
      decreases MaxDepth + 1 - depth, 2
      ensures Valid() && AllSettled()
      ensures |old(visits)| <= |visits| && visits[..|old(visits)|] == old(visits)
      ensures |old(steps)| <= |steps| && steps[..|old(steps)|] == old(steps)
      ensures forall k :: |old(visits)| <= k < |visits| ==> visits[k].depth > depth
      ensures forall j :: |old(steps)| <= j < |steps| ==> steps[j].caller >= me
      ensures ShowsPainted() && old(painted) <= painted
      ensures CarvedExcept(visits, painted, Pos(x, y))
      ensures old(furthestDistance) <= furthestDistance
      // every two-step neighbour of the call and of every new call is carved or refused
      ensures Surrounded(painted, Pos(x, y))
      ensures forall k :: |old(visits)| <= k < |visits| ==> Surrounded(painted, At(visits[k]))
      // the call's own stamps follow the order d, d + 1, d + 3, d + 2 of the rounds
      ensures |taken| == 4 && Own(steps, me) == Own(old(steps), me) + Select(Rounds(direction), taken)
    {
      var dir := direction;
      // the directions the four rounds try, in order
      ghost var order := Rounds(direction);
      taken := [];
      ghost var v0, s0 := visits, steps;

      for i := 0 to 4
        invariant Valid() && AllSettled()
        invariant i == 0 ==> dir == direction
        invariant 0 < i ==> dir == order[i - 1]
        invariant Since(v0, s0, depth, me)
        invariant ShowsPainted() && old(painted) <= painted
        invariant CarvedExcept(visits, painted, Pos(x, y))
        invariant old(furthestDistance) <= furthestDistance
        invariant forall k :: 0 <= k < i ==> Covered(painted, x, y, order[k])
        invariant |taken| == i && Own(steps, me) == Own(s0, me) + Select(order[..i], taken)
      {
        TriedStep(direction, i, dir);
        dir := (dir + i) % 4;
        ghost var own := Own(steps, me);
        var stamped := Branch(x, y, dir, depth, me, v0, s0);
        SelectStep(order, i, taken, stamped, Own(s0, me), own, Own(steps, me));
        taken := taken + [stamped];
      }
      assert order[..4] == order;
      TriedEachOnce(direction);
    }

    /**
     * One round of the direction loop of CreatePath: when the cell two steps
     * away in `dir` passes the bounds test and is not yet path, stamp towards
     * it and carve on from there; otherwise nothing changes. `me` is the
     * index of the calling visit, and `stamped` tells whether the round stamped.
     */
    method Branch(x: int, y: int, dir: int, depth: nat, ghost me: nat, ghost v0: seq<Visit>, ghost s0: seq<Step>)
      returns (ghost stamped: bool)
      requires Valid() && AllSettled()
      requires IsDirection(dir) && depth <= MaxDepth
      requires InGrid(Pos(x, y), Width(), Height())
      requires me < |visits| && At(visits[me]) == Pos(x, y) && visits[me].depth == depth
      requires CarvedExcept(visits, painted, Pos(x, y))
      // the round continues the rounds of `me` begun at v0 and s0
      requires me < |v0| && Since(v0, s0, depth, me)
      requires ShowsPainted()
      modifies this, grid
      decreases MaxDepth + 1 - depth, 1
      ensures var target := GetPosition(x, y, dir, 2).value;
        stamped == old(CheckPosition(target, Width(), Height()) && grid[target.y, target.x] != Path)
      ensures !stamped ==> unchanged(this) && unchanged(grid)
      // a stamp towards the target comes first, then the call at the target
      ensures stamped ==> |old(steps)| < |steps| && steps[|old(steps)|] == Step(x, y, dir, me, |old(visits)|)
      ensures stamped && depth < MaxDepth ==>
        var target := GetPosition(x, y, dir, 2).value;
        |old(visits)| < |visits| && visits[|old(visits)|] == Visit(target.x, target.y, depth + 1, me, Pos(x, y))
      ensures Own(steps, me) == Own(old(steps), me) + (if stamped then [dir] else [])
      ensures Valid() && AllSettled()
      ensures |old(visits)| <= |visits| && visits[..|old(visits)|] == old(visits)
      ensures |old(steps)| <= |steps| && steps[..|old(steps)|] == old(steps)
      ensures forall j :: |old(steps)| < j < |steps| ==> steps[j].caller >= |old(visits)|
      ensures ShowsPainted() && old(painted) <= painted
      ensures CarvedExcept(visits, painted, Pos(x, y))
      ensures old(furthestDistance) <= furthestDistance
      ensures Covered(painted, x, y, dir)
      ensures Since(v0, s0, depth, me)
    {
      var pos := GetPosition(x, y, dir, 2).value;
      var open := CheckPosition(pos, Width(), Height()) && grid[pos.y, pos.x] != Path;
      stamped := open;
      if open {
        Advance(x, y, dir, depth, me);
        assert visits[..|v0|] == old(visits)[..|v0|];
        assert steps[..|s0|] == old(steps)[..|s0|];
        forall k | |v0| <= k < |visits|
          ensures visits[k].depth > depth && Surrounded(painted, At(visits[k]))
        {
          if k < |old(visits)| {
            assert visits[k] == old(visits)[k];
            assert old(Surrounded(painted, At(visits[k])));
          }
        }
        forall j | |s0| <= j < |steps|
          ensures steps[j].caller >= me
        {
          if j < |old(steps)| {
            assert steps[j] == old(steps)[j];
          }
        }
      }
    }

    /**
     * The stamped case of a round: stamp towards the target two cells away
     * in `dir`, which passed the bounds test and is not yet path, then carve
     * on from the target one level deeper.
     */
    method Advance(x: int, y: int, dir: int, depth: nat, ghost me: nat)
      requires Valid() && AllSettled()
      requires IsDirection(dir) && depth <= MaxDepth
      requires InGrid(Pos(x, y), Width(), Height())
      requires me < |visits| && At(visits[me]) == Pos(x, y) && visits[me].depth == depth
      requires var target := GetPosition(x, y, dir, 2).value;
        CheckPosition(target, Width(), Height()) && grid[target.y, target.x] != Path
      requires CarvedExcept(visits, painted, Pos(x, y))
      requires ShowsPainted()
      modifies this, grid
      decreases MaxDepth + 1 - depth, 0
      ensures |old(steps)| < |steps| && steps[|old(steps)|] == Step(x, y, dir, me, |old(visits)|)
      ensures depth < MaxDepth ==>
        var target := GetPosition(x, y, dir, 2).value;
        |old(visits)| < |visits| && visits[|old(visits)|] == Visit(target.x, target.y, depth + 1, me, Pos(x, y))
      ensures Own(steps, me) == Own(old(steps), me) + [dir]
      ensures Valid() && AllSettled()
      ensures |old(visits)| <= |visits| && visits[..|old(visits)|] == old(visits)
      ensures |old(steps)| <= |steps| && steps[..|old(steps)|] == old(steps)
      ensures forall k :: |old(visits)| <= k < |visits| ==> visits[k].depth > depth
      ensures forall j :: |old(steps)| < j < |steps| ==> steps[j].caller >= |old(visits)|
      ensures ShowsPainted() && old(painted) <= painted
      ensures CarvedExcept(visits, painted, Pos(x, y))
      ensures old(furthestDistance) <= furthestDistance
      ensures GetPosition(x, y, dir, 2).value in painted
      ensures forall k :: |old(visits)| <= k < |visits| ==> Surrounded(painted, At(visits[k]))
    {
      var pos := GetPosition(x, y, dir, 2).value;
      // the target is not stamped, so no call stands on it
      assert pos !in painted && pos != Pos(x, y);
      StampTowards(x, y, dir, me);
      ghost var stamp := steps;
      assert |stamp| == |old(steps)| + 1 && stamp[..|old(steps)|] == old(steps);
      assert visits == old(visits);
      CreatePath(pos.x, pos.y, dir, depth + 1, me, Pos(x, y));
      forall k | |old(visits)| <= k < |visits|
        ensures visits[k].depth > depth
      {
        if k == |old(visits)| {
          assert visits[k].depth == depth + 1;
        }
      }
      CarvedMoves(visits, painted, pos, Pos(x, y));
      assert steps[..|stamp|] == stamp;
      assert steps[..|old(steps)|] == stamp[..|old(steps)|];
      OwnAfter(steps, |stamp|, me);
    }

    /**
     * The stamp of one round of the direction loop, made by visit `me`
     * towards a target that passed the bounds test: it paints the cell, the
     * target and the cell between, logs the stamp as waiting for its call,
     * and keeps every call carved with the exception moved to the target.
     */
    method StampTowards(x: int, y: int, dir: int, ghost me: nat)
      requires Valid() && AllSettled()
      requires IsDirection(dir) && InGrid(Pos(x, y), Width(), Height())
      requires me < |visits| && At(visits[me]) == Pos(x, y)
      requires var target := GetPosition(x, y, dir, 2).value;
        CheckPosition(target, Width(), Height()) && grid[target.y, target.x] != Path
      requires CarvedExcept(visits, painted, Pos(x, y))
      requires ShowsPainted()
      modifies this`steps, this`painted, grid
      ensures Valid()
      ensures steps == old(steps) + [Step(x, y, dir, me, |visits|)]
      ensures painted == old(painted) + StampCells(x, y, dir)
      ensures forall row, col :: 0 <= row < Height() && 0 <= col < Width() ==>
        grid[row, col] == if Pos(col, row) in StampCells(x, y, dir) then Path else old(grid[row, col])
      ensures Own(steps, me) == Own(old(steps), me) + [dir]
      ensures ShowsPainted() && old(painted) <= painted
      ensures var target := GetPosition(x, y, dir, 2).value;
        Pos(x, y) in painted && target in painted && Midpoint(Pos(x, y), target) in painted
      ensures CarvedExcept(visits, painted, GetPosition(x, y, dir, 2).value)
    {
      var pos := GetPosition(x, y, dir, 2).value;
      // the target is not path yet, so no stamp painted it
      assert pos !in painted;
      assert steps != [] ==> steps[|steps| - 1].next <= |visits|;
      var _ := Stamp(x, y, dir);
      GetPositionMidway(x, y, dir);
      ghost var one := GetPosition(x, y, dir, 1).value;
      assert InGrid(one, Width(), Height()) && Midpoint(Pos(x, y), pos) == one;
      ghost var s := Step(x, y, dir, me, |visits|);
      StampLogAppend(visits, steps, s, Width(), Height(), MaxDepth);
      assert (steps + [s])[..|steps|] == steps;
      steps := steps + [s];
      painted := painted + StampCells(x, y, dir);
      assert painted == old(painted) + {Pos(x, y), one, pos};
      forall row, col | 0 <= row < Height() && 0 <= col < Width()
        ensures grid[row, col] == if Pos(col, row) in painted then Path else Unvisited
      {
      }
      CarvedMoves(visits, painted, Pos(x, y), pos);
    }

    /**
     * The carving half of create_maze: a random first heading, then the
     * recursive carve from (startX, startY) at depth 0, whose calls form a
     * carve tree with its only first call at the start.
     */
    method Carve(startX: int, startY: int)
      requires Valid() && visits == []
      requires InGrid(Pos(startX, startY), Width(), Height())
      // a fresh black image
      requires forall row, col :: 0 <= row < Height() && 0 <= col < Width() ==> grid[row, col] == Unvisited
      modifies this, grid
      ensures Valid() && AllSettled()
      ensures ShowsPainted() && old(painted) <= painted
      ensures |visits| > 0 && visits[0] == Visit(startX, startY, 0, -1, Pos(startX, startY))
      ensures forall k :: 0 < k < |visits| ==> visits[k].depth > 0
      // every call is carved, save the start when nothing was stamped, and so
      // is every two-step neighbour of a call that passes the bounds test
      ensures CarvedExcept(visits, painted, Pos(startX, startY))
      ensures forall k :: 0 <= k < |visits| ==> Surrounded(painted, At(visits[k]))
    {
      var direction := RandRange(0, 4);
      CreatePath(startX, startY, direction, 0, -1, Pos(startX, startY));
    }

    /**
     * Carves a maze from (startX, startY), then paints the farthest point
     * and, last, the start, so the start mark wins when the two coincide.
     */
    method CreateMaze(startX: int, startY: int)
      requires Valid() && visits == []
      requires InGrid(Pos(startX, startY), Width(), Height())
      // a fresh black image
      requires forall row, col :: 0 <= row < Height() && 0 <= col < Width() ==> grid[row, col] == Unvisited
      modifies this, grid
      ensures Valid()
      // the carve is a tree rooted at the start whose calls share its parity
      ensures |visits| > 0 && visits[0] == Visit(startX, startY, 0, -1, Pos(startX, startY))
      ensures Aligned(visits, Pos(startX, startY))
      // no two stamps share their middle cell
      ensures forall i, j :: 0 <= i < j < |steps| ==>
        IsDirection(steps[i].direction) && IsDirection(steps[j].direction) && Mid(steps[i]) != Mid(steps[j])
      // the farthest point is the first cell to reach the greatest depth, or
      // (0, 0) when no cell got past depth 0
      ensures 0 <= furthestDistance <= MaxDepth
      ensures forall k :: 0 <= k < |visits| ==> visits[k].depth <= furthestDistance
      ensures furthestDistance == 0 ==> furthestX == 0 && furthestY == 0
      ensures furthestDistance > 0 ==>
        exists k :: 0 <= k < |visits| && FirstToReach(visits, k) &&
          Mark(furthestX, furthestY, furthestDistance) == Mark(visits[k].x, visits[k].y, visits[k].depth)
      ensures InGrid(Pos(furthestX, furthestY), Width(), Height())
      // the marks
      ensures grid[startY, startX] == Start
      ensures Pos(furthestX, furthestY) != Pos(startX, startY) ==> grid[furthestY, furthestX] == Farthest
      // every call other than the two marks stands on path, and every
      // two-step neighbour of a call that passes the bounds test is path or a mark
      ensures forall k ::
        (0 <= k < |visits| && At(visits[k]) != Pos(startX, startY) && At(visits[k]) != Pos(furthestX, furthestY)) ==>
          IsPath(At(visits[k]))
      ensures forall k, d ::
        (0 <= k < |visits| && IsDirection(d) &&
         CheckPosition(GetPosition(visits[k].x, visits[k].y, d, 2).value, Width(), Height())) ==>
          var t := GetPosition(visits[k].x, visits[k].y, d, 2).value;
          grid[t.y, t.x] in {Path, Start, Farthest}
      // every other cell is path when stamped and untouched otherwise
      ensures forall row, col ::
        (0 <= row < Height() && 0 <= col < Width() &&
         Pos(col, row) != Pos(startX, startY) && Pos(col, row) != Pos(furthestX, furthestY)) ==>
          grid[row, col] == if Pos(col, row) in painted then Path else old(grid[row, col])
    {
      Carve(startX, startY);
      RootedCarve(visits, Width(), Height(), MaxDepth, Pos(startX, startY));
      StampsApart(visits, steps, Width(), Height(), MaxDepth, Pos(startX, startY));
      label carved:
      grid[furthestY, furthestX] := Farthest;
      grid[startY, startX] := Start;
      assert visits == old@carved(visits);
      forall row, col |
        0 <= row < Height() && 0 <= col < Width() &&
        Pos(col, row) != Pos(startX, startY) && Pos(col, row) != Pos(furthestX, furthestY)
        ensures grid[row, col] == if Pos(col, row) in painted then Path else old(grid[row, col])
      {
        assert row != startY || col != startX;
        assert row != furthestY || col != furthestX;
        assert grid[row, col] == old@carved(grid[row, col]);
      }
      forall k | 0 <= k < |visits| && At(visits[k]) != Pos(startX, startY) && At(visits[k]) != Pos(furthestX, furthestY)
        ensures IsPath(At(visits[k]))
      {
        assert At(visits[k]) in painted;
      }
      forall k, d | 0 <= k < |visits| && IsDirection(d) &&
        CheckPosition(GetPosition(visits[k].x, visits[k].y, d, 2).value, Width(), Height())
        ensures var t := GetPosition(visits[k].x, visits[k].y, d, 2).value;
          grid[t.y, t.x] in {Path, Start, Farthest}
      {
        assert Covered(painted, visits[k].x, visits[k].y, d);
        var t := GetPosition(visits[k].x, visits[k].y, d, 2).value;
        assert old@carved(grid[t.y, t.x]) == Path;
        if t != Pos(startX, startY) && t != Pos(furthestX, furthestY) {
          assert grid[t.y, t.x] == old@carved(grid[t.y, t.x]);
        }
      }
    }
  }
}
