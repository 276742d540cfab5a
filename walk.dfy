/**
 * The specification side of the recursive carver: the record of the calls
 * it makes (their positions, depths and callers), the farthest-point record
 * as a function of those calls, and the order in which one call tries the
 * four directions.
 */
module Walk {
  import opened Geometry

  /**
   * One call of the carver that got past the depth cap: where it stood,
   * its recursion depth, the index of the visit that called it (-1 for the
   * first call of a carve) and the cell that caller stood on (its own cell
   * for a first call).
   */
  datatype Visit = Visit(x: int, y: int, depth: nat, parent: int, from: Pos)

  /** The farthest-point record: a cell and the depth at which it was reached. */
  datatype Mark = Mark(x: int, y: int, distance: int)

  /** The farthest-point record before any carving: cell (0, 0) at depth 0. */
  const Origin := Mark(0, 0, 0)

  function At(v: Visit): Pos {
    Pos(v.x, v.y)
  }

  /** Two cells in one row or column with exactly one cell between them. */
  predicate TwoApart(a: Pos, b: Pos) {
    (a.x == b.x && Abs(a.y - b.y) == 2) || (a.y == b.y && Abs(a.x - b.x) == 2)
  }

  /** The cell between two cells that are two apart. */
  function Midpoint(a: Pos, b: Pos): Pos {
    Pos((a.x + b.x) / 2, (a.y + b.y) / 2)
  }

  predicate Even(n: int) {
    n % 2 == 0
  }

  /** A prefix of a prefix is a prefix. */
  lemma PrefixChain<T>(a: seq<T>, b: seq<T>, c: seq<T>)
    requires |b| <= |a| && a[..|b|] == b && |c| <= |b| && b[..|c|] == c
    ensures a[..|c|] == c
  {
    assert a[..|c|] == a[..|b|][..|c|];
  }

  /** Every call lies an even number of cells from `root` on both axes. */
  ghost predicate Aligned(visits: seq<Visit>, root: Pos) {
    forall k :: 0 <= k < |visits| ==> Even(visits[k].x - root.x) && Even(visits[k].y - root.y)
  }

  /** Parity composes: two even offsets add up to an even offset. */
  lemma EvenSum(a: int, b: int)
    ensures Even(a) && Even(b) ==> Even(a + b)
  {
  }

  /**
   * The farthest-point record after the given calls, in call order: a call
   * replaces the record only when its depth is strictly greater, so on a
   * tie the first call to reach that depth keeps it.
   */
  function FarthestMark(visits: seq<Visit>): Mark {
    if visits == [] then Origin
    else
      var m := FarthestMark(visits[..|visits| - 1]);
      var v := visits[|visits| - 1];
      if m.distance < v.depth then Mark(v.x, v.y, v.depth) else m
  }

  /** Visit k is the first of the calls to reach its depth. */
  ghost predicate FirstToReach(visits: seq<Visit>, k: int)
    requires 0 <= k < |visits|
  {
    forall j :: 0 <= j < k ==> visits[j].depth < visits[k].depth
  }

  /** The record's depth is at least that of every call. */
  lemma {:induction false} FarthestIsMaximum(visits: seq<Visit>)
    ensures FarthestMark(visits).distance >= 0
    ensures forall k :: 0 <= k < |visits| ==> visits[k].depth <= FarthestMark(visits).distance
  {
    if visits != [] {
      var init := visits[..|visits| - 1];
      FarthestIsMaximum(init);
      forall k | 0 <= k < |visits| - 1
        ensures visits[k].depth <= FarthestMark(visits).distance
      {
        assert visits[k] == init[k];
      }
    }
  }

  /**
   * The record is either the initial one, at depth 0, or the cell and depth
   * of a call that was the first to reach that depth.
   */
  lemma {:induction false} FarthestIsFirstReached(visits: seq<Visit>)
    ensures FarthestMark(visits).distance == 0 ==> FarthestMark(visits) == Origin
    ensures FarthestMark(visits).distance != 0 ==>
      exists k :: 0 <= k < |visits| && FirstToReach(visits, k) &&
        FarthestMark(visits) == Mark(visits[k].x, visits[k].y, visits[k].depth)
  {
    if visits != [] {
      var init := visits[..|visits| - 1];
      var last := |visits| - 1;
      FarthestIsFirstReached(init);
      FarthestIsMaximum(init);
      var m := FarthestMark(init);
      if m.distance < visits[last].depth {
        forall j | 0 <= j < last ensures visits[j].depth < visits[last].depth {
          assert visits[j] == init[j];
        }
        assert FirstToReach(visits, last);
      } else if m.distance != 0 {
        var k :| 0 <= k < |init| && FirstToReach(init, k) &&
          m == Mark(init[k].x, init[k].y, init[k].depth);
        assert visits[k] == init[k];
        forall j | 0 <= j < k ensures visits[j].depth < visits[k].depth {
          assert visits[j] == init[j];
        }
        assert FirstToReach(visits, k);
      }
    }
  }

  /** More calls never lower the record's depth. */
  lemma {:induction false} FarthestGrows(visits: seq<Visit>, n: nat)
    requires n <= |visits|
    ensures FarthestMark(visits[..n]).distance <= FarthestMark(visits).distance
    decreases |visits|
  {
    if n < |visits| {
      var init := visits[..|visits| - 1];
      assert init[..n] == visits[..n];
      FarthestGrows(init, n);
    } else {
      assert visits[..n] == visits;
    }
  }

  /** Calls no deeper than the record leave it as it is: the first writer wins. */
  lemma {:induction false} FarthestKeptOnTies(visits: seq<Visit>, more: seq<Visit>)
    requires forall k :: 0 <= k < |more| ==> more[k].depth <= FarthestMark(visits).distance
    ensures FarthestMark(visits + more) == FarthestMark(visits)
  {
    if more != [] {
      var init := more[..|more| - 1];
      FarthestKeptOnTies(visits, init);
      assert (visits + more)[..|visits + more| - 1] == visits + init;
    } else {
      assert visits + more == visits;
    }
  }

  /** The record never exceeds a bound that every call respects. */
  lemma FarthestBounded(visits: seq<Visit>, bound: nat)
    requires forall k :: 0 <= k < |visits| ==> visits[k].depth <= bound
    ensures 0 <= FarthestMark(visits).distance <= bound
  {
    FarthestIsMaximum(visits);
    FarthestIsFirstReached(visits);
  }

  /**
   * A carve grown from one first call at `root`: every call shares the
   * root's parity, and the farthest mark is either the origin, when no call
   * got past depth 0, or the first call to reach the greatest depth, a cell
   * of the grid within the cap.
   */
  lemma RootedCarve(visits: seq<Visit>, width: int, height: int, cap: nat, root: Pos)
    requires CarveTree(visits, width, height, cap)
    requires |visits| > 0 && At(visits[0]) == root
    requires forall k :: 0 < k < |visits| ==> visits[k].depth > 0
    ensures Aligned(visits, root)
    ensures 0 <= FarthestMark(visits).distance <= cap
    ensures forall k :: 0 <= k < |visits| ==> visits[k].depth <= FarthestMark(visits).distance
    ensures FarthestMark(visits).distance == 0 ==> FarthestMark(visits) == Origin
    ensures FarthestMark(visits).distance > 0 ==>
      exists k :: 0 <= k < |visits| && FirstToReach(visits, k) &&
        FarthestMark(visits) == Mark(visits[k].x, visits[k].y, visits[k].depth)
    ensures InGrid(Pos(FarthestMark(visits).x, FarthestMark(visits).y), width, height)
  {
    CarveTreeCells(visits, width, height, cap);
    CarveTreeParity(visits, width, height, cap, root);
    FarthestBounded(visits, cap);
    FarthestIsMaximum(visits);
    FarthestIsFirstReached(visits);
  }

  /**
   * Call v may follow the calls `visits` of a carve on a `width` x `height`
   * grid under a depth cap: it stands on a cell of the grid, within the cap,
   * at a cell no earlier call stood on; and unless it is a first call, at
   * depth 0, it was made by an earlier call two cells away, one level
   * shallower, at a cell that passed the bounds test.
   */
  ghost predicate Joins(visits: seq<Visit>, v: Visit, width: int, height: int, cap: nat) {
    && InGrid(At(v), width, height)
    && v.depth <= cap
    && -1 <= v.parent < |visits|
    && (v.parent == -1 <==> v.depth == 0)
    && (v.parent == -1 ==> v.from == At(v))
    && (v.parent >= 0 ==>
          && At(visits[v.parent]) == v.from
          && TwoApart(v.from, At(v))
          && CheckPosition(At(v), width, height)
          && v.depth == visits[v.parent].depth + 1)
    && (forall k :: 0 <= k < |visits| ==> At(visits[k]) != At(v))
  }

  /** Every call of the sequence may follow the calls before it. */
  ghost predicate CarveTree(visits: seq<Visit>, width: int, height: int, cap: nat)
    decreases |visits|
  {
    visits == [] ||
    var n := |visits| - 1;
    CarveTree(visits[..n], width, height, cap) && Joins(visits[..n], visits[n], width, height, cap)
  }

  /** A call that may follow the calls so far extends the tree. */
  lemma CarveTreeAppend(visits: seq<Visit>, v: Visit, width: int, height: int, cap: nat)
    requires CarveTree(visits, width, height, cap) && Joins(visits, v, width, height, cap)
    ensures CarveTree(visits + [v], width, height, cap)
  {
    assert (visits + [v])[..|visits|] == visits;
  }

  /**
   * Every call of a carve tree stands on a cell of the grid within the cap,
   * only calls at depth 0 have no caller, and every other call stands on a
   * cell that passed the bounds test.
   */
  lemma {:induction false} CarveTreeCells(visits: seq<Visit>, width: int, height: int, cap: nat)
    requires CarveTree(visits, width, height, cap)
    ensures forall k :: 0 <= k < |visits| ==>
      && InGrid(At(visits[k]), width, height)
      && visits[k].depth <= cap
      && -1 <= visits[k].parent < k
      && (visits[k].parent == -1 <==> visits[k].depth == 0)
      && (visits[k].parent >= 0 ==> CheckPosition(At(visits[k]), width, height))
    decreases |visits|
  {
    if visits != [] {
      var n := |visits| - 1;
      var init := visits[..n];
      CarveTreeCells(init, width, height, cap);
      forall k | 0 <= k < n
        ensures visits[k] == init[k]
      {
      }
    }
  }

  /**
   * Every call of a carve tree but a first one stands two cells from the
   * cell of its caller, one level deeper.
   */
  lemma {:induction false} CarveTreeLinks(visits: seq<Visit>, width: int, height: int, cap: nat)
    requires CarveTree(visits, width, height, cap)
    ensures forall p, k :: 0 <= p < k < |visits| && visits[k].parent == p ==>
      && At(visits[p]) == visits[k].from
      && TwoApart(At(visits[p]), At(visits[k]))
      && visits[k].depth == visits[p].depth + 1
    decreases |visits|
  {
    if visits != [] {
      var n := |visits| - 1;
      var init := visits[..n];
      CarveTreeLinks(init, width, height, cap);
      forall k | 0 <= k < n
        ensures visits[k] == init[k]
      {
      }
    }
  }

  /** No two calls of a carve tree stand on the same cell. */
  lemma {:induction false} CarveTreeDistinct(visits: seq<Visit>, width: int, height: int, cap: nat)
    requires CarveTree(visits, width, height, cap)
    ensures forall k, l :: 0 <= k < l < |visits| ==> At(visits[k]) != At(visits[l])
    decreases |visits|
  {
    if visits != [] {
      var n := |visits| - 1;
      var init := visits[..n];
      CarveTreeDistinct(init, width, height, cap);
      forall k | 0 <= k < n
        ensures visits[k] == init[k]
      {
      }
    }
  }

  /**
   * In a carve whose only first call stands on `root`, every call lies an
   * even number of cells from `root` on both axes.
   */
  lemma {:induction false} CarveTreeParity(visits: seq<Visit>, width: int, height: int, cap: nat, root: Pos)
    requires CarveTree(visits, width, height, cap)
    requires |visits| > 0 ==> At(visits[0]) == root
    requires forall k :: 0 < k < |visits| ==> visits[k].depth > 0
    ensures Aligned(visits, root)
    decreases |visits|
  {
    if visits != [] {
      var n := |visits| - 1;
      var init := visits[..n];
      CarveTreeParity(init, width, height, cap, root);
      forall k | 0 <= k < n
        ensures visits[k] == init[k]
      {
      }
      if n > 0 {
        var v := visits[n];
        var u := visits[v.parent];
        assert u == init[v.parent];
        EvenSum(u.x - root.x, v.x - u.x);
        EvenSum(u.y - root.y, v.y - u.y);
      }
    }
  }

  /**
   * One stamp: from (x, y) towards `direction`, made by visit `caller` when
   * `next` calls had been recorded, so the call it leads to, if one is
   * recorded, is visit `next`.
   */
  datatype Step = Step(x: int, y: int, direction: int, caller: int, next: int)

  /** The cell two steps away that a stamp aims at. */
  function Target(s: Step): Pos
    requires IsDirection(s.direction)
  {
    GetPosition(s.x, s.y, s.direction, 2).value
  }

  /** The cells a stamp paints: the cell itself and, for a valid direction, the next two. */
  function StampCells(x: int, y: int, direction: int): set<Pos> {
    if IsDirection(direction) then
      {Pos(x, y), GetPosition(x, y, direction, 1).value, GetPosition(x, y, direction, 2).value}
    else
      {Pos(x, y)}
  }

  /** The cells painted by the given stamps. */
  function Painted(steps: seq<Step>): set<Pos> {
    if steps == [] then {}
    else
      var s := steps[|steps| - 1];
      Painted(steps[..|steps| - 1]) + StampCells(s.x, s.y, s.direction)
  }

  /**
   * Stamp s was made by an earlier call standing on its cell, towards a
   * target two cells away that passed the bounds test; once the next call
   * is recorded it is the one the stamp led to, standing on the target and
   * made by the stamp's caller, unless that caller was at the depth cap,
   * where the call the stamp leads to returns at once and is not recorded.
   */
  ghost predicate Leads(visits: seq<Visit>, s: Step, width: int, height: int, cap: nat) {
    && 0 <= s.caller < s.next <= |visits|
    && At(visits[s.caller]) == Pos(s.x, s.y)
    && IsDirection(s.direction)
    && CheckPosition(GetPosition(s.x, s.y, s.direction, 2).value, width, height)
    && (s.next < |visits| && visits[s.caller].depth < cap ==>
          && visits[s.next].parent == s.caller
          && At(visits[s.next]) == GetPosition(s.x, s.y, s.direction, 2).value)
  }

  /** The call that stamp s leads to has been recorded, or its caller is at the cap. */
  ghost predicate Settled(visits: seq<Visit>, s: Step, cap: nat) {
    s.next < |visits| || (0 <= s.caller < |visits| && visits[s.caller].depth >= cap)
  }

  /**
   * Every stamp of the log leads as it should and aims at a cell no earlier
   * stamp painted; every stamp but the last is settled, so only the latest
   * stamp may still wait for its call; and the calls the stamps lead to come
   * in the order of the stamps.
   */
  ghost predicate StampLog(visits: seq<Visit>, steps: seq<Step>, width: int, height: int, cap: nat)
    decreases |steps|
  {
    steps == [] ||
    var n := |steps| - 1;
    && StampLog(visits, steps[..n], width, height, cap)
    && Leads(visits, steps[n], width, height, cap)
    && Target(steps[n]) !in Painted(steps[..n])
    && (n > 0 ==> Settled(visits, steps[n - 1], cap) && steps[n - 1].next <= steps[n].next)
  }

  /** A stamp that leads as it should, after a settled log, extends the log. */
  lemma StampLogAppend(visits: seq<Visit>, steps: seq<Step>, s: Step, width: int, height: int, cap: nat)
    requires StampLog(visits, steps, width, height, cap)
    requires steps != [] ==> Settled(visits, steps[|steps| - 1], cap) && steps[|steps| - 1].next <= s.next
    requires Leads(visits, s, width, height, cap)
    requires Target(s) !in Painted(steps)
    ensures StampLog(visits, steps + [s], width, height, cap)
  {
    assert (steps + [s])[..|steps|] == steps;
  }

  /**
   * Recording the next call keeps the log, and settles the latest stamp,
   * provided the call is the one that stamp waits for.
   */
  lemma {:induction false} StampLogRecord(visits: seq<Visit>, steps: seq<Step>, v: Visit, width: int, height: int, cap: nat)
    requires StampLog(visits, steps, width, height, cap)
    requires steps != [] ==>
      var s := steps[|steps| - 1];
      s.next == |visits| && visits[s.caller].depth < cap ==>
        v.parent == s.caller && At(v) == GetPosition(s.x, s.y, s.direction, 2).value
    ensures StampLog(visits + [v], steps, width, height, cap)
    ensures steps != [] ==> Settled(visits + [v], steps[|steps| - 1], cap)
    decreases |steps|
  {
    if steps != [] {
      var n := |steps| - 1;
      var s := steps[n];
      assert forall i :: 0 <= i < |visits| ==> (visits + [v])[i] == visits[i];
      StampLogRecord(visits, steps[..n], v, width, height, cap);
      if n > 0 {
        assert steps[..n][n - 1] == steps[n - 1];
      }
    }
  }

  /**
   * What a stamp log says about each of its stamps: each leads as it
   * should, and all but the last are settled.
   */
  lemma {:induction false} StampLogFacts(visits: seq<Visit>, steps: seq<Step>, width: int, height: int, cap: nat)
    requires StampLog(visits, steps, width, height, cap)
    ensures forall j :: 0 <= j < |steps| ==> Leads(visits, steps[j], width, height, cap)
    ensures forall j :: 0 <= j < |steps| - 1 ==> Settled(visits, steps[j], cap)
    decreases |steps|
  {
    if steps != [] {
      var n := |steps| - 1;
      StampLogFacts(visits, steps[..n], width, height, cap);
      forall j | 0 <= j < n
        ensures steps[j] == steps[..n][j]
      {
      }
    }
  }

  /** A stamp paints its cells for good: every later prefix of the log still has them. */
  lemma {:induction false} PaintedKeeps(steps: seq<Step>, i: nat, j: nat)
    requires i < j <= |steps|
    ensures StampCells(steps[i].x, steps[i].y, steps[i].direction) <= Painted(steps[..j])
    decreases j
  {
    assert steps[..j][..j - 1] == steps[..j - 1];
    if i < j - 1 {
      PaintedKeeps(steps, i, j - 1);
    }
  }

  /** Stamp j of a log leads as it should, and is settled unless it is the latest. */
  lemma {:induction false} StampLogAt(visits: seq<Visit>, steps: seq<Step>, width: int, height: int, cap: nat, j: nat)
    requires StampLog(visits, steps, width, height, cap) && j < |steps|
    ensures Leads(visits, steps[j], width, height, cap)
    ensures j < |steps| - 1 ==> Settled(visits, steps[j], cap)
    decreases |steps|
  {
    var n := |steps| - 1;
    if j < n {
      StampLogAt(visits, steps[..n], width, height, cap, j);
      assert steps[..n][j] == steps[j];
    }
  }

  /** Stamp j of a log aims at a cell that no earlier stamp painted. */
  lemma {:induction false} StampFresh(visits: seq<Visit>, steps: seq<Step>, width: int, height: int, cap: nat, j: nat)
    requires StampLog(visits, steps, width, height, cap) && j < |steps|
    ensures IsDirection(steps[j].direction) && Target(steps[j]) !in Painted(steps[..j])
    decreases |steps|
  {
    var n := |steps| - 1;
    if j < n {
      StampFresh(visits, steps[..n], width, height, cap, j);
      assert steps[..n][j] == steps[j] && steps[..n][..j] == steps[..j];
    }
  }

  /** The calls the stamps of a log lead to never go back: `next` only grows along the log. */
  lemma {:induction false} NextGrows(visits: seq<Visit>, steps: seq<Step>, width: int, height: int, cap: nat, i: nat, j: nat)
    requires StampLog(visits, steps, width, height, cap) && i <= j < |steps|
    ensures steps[i].next <= steps[j].next
    decreases |steps|
  {
    var n := |steps| - 1;
    if i < j {
      var init := steps[..n];
      if j < n {
        NextGrows(visits, init, width, height, cap, i, j);
        assert init[i] == steps[i] && init[j] == steps[j];
      } else {
        NextGrows(visits, init, width, height, cap, i, n - 1);
        assert init[i] == steps[i] && init[n - 1] == steps[n - 1];
      }
    }
  }

  /**
   * The calls of a carve follow its stamps: of two stamps whose callers
   * were below the cap, the call the earlier one led to was recorded
   * before the call the later one led to.
   */
  lemma CalleesInOrder(visits: seq<Visit>, steps: seq<Step>, width: int, height: int, cap: nat, i: nat, j: nat)
    requires StampLog(visits, steps, width, height, cap)
    requires i < j < |steps| && steps[j].next < |visits|
    requires 0 <= steps[i].caller < |visits| && visits[steps[i].caller].depth < cap
    requires 0 <= steps[j].caller < |visits| && visits[steps[j].caller].depth < cap
    ensures steps[i].next < steps[j].next
    ensures 0 <= steps[i].next < |visits| && IsDirection(steps[i].direction)
    ensures visits[steps[i].next].parent == steps[i].caller && At(visits[steps[i].next]) == Target(steps[i])
  {
    StampLogAt(visits, steps, width, height, cap, i);
    StampLogAt(visits, steps, width, height, cap, j);
    NextGrows(visits, steps, width, height, cap, i, j);
    StampFresh(visits, steps, width, height, cap, j);
    PaintedKeeps(steps, i, j);
    assert Target(steps[i]) in StampCells(steps[i].x, steps[i].y, steps[i].direction);
  }

  /** The cell one step along a stamp, between its cell and its target. */
  function Mid(s: Step): Pos
    requires IsDirection(s.direction)
  {
    GetPosition(s.x, s.y, s.direction, 1).value
  }

  /**
   * Two stamps from cells of the same parity meet in the middle only when
   * they are the same move or the same move in reverse.
   */
  lemma MidpointsMeet(a: Step, b: Step, root: Pos)
    requires IsDirection(a.direction) && IsDirection(b.direction)
    requires Even(a.x - root.x) && Even(a.y - root.y) && Even(b.x - root.x) && Even(b.y - root.y)
    requires Mid(a) == Mid(b)
    ensures || (Pos(a.x, a.y) == Pos(b.x, b.y) && Target(a) == Target(b))
            || (Pos(a.x, a.y) == Target(b) && Pos(b.x, b.y) == Target(a))
  {
  }

  /**
   * Of two stamps of a log whose calls all share the parity of `root`, the
   * later one aims at a cell the earlier one painted neither as its cell
   * nor as its target, so their middle cells differ.
   */
  lemma StampPairApart(visits: seq<Visit>, steps: seq<Step>, width: int, height: int, cap: nat, root: Pos, i: nat, j: nat)
    requires StampLog(visits, steps, width, height, cap) && Aligned(visits, root)
    requires i < j < |steps|
    ensures IsDirection(steps[i].direction) && IsDirection(steps[j].direction) && Mid(steps[i]) != Mid(steps[j])
  {
    StampLogAt(visits, steps, width, height, cap, i);
    StampLogAt(visits, steps, width, height, cap, j);
    StampFresh(visits, steps, width, height, cap, j);
    var a, b := steps[i], steps[j];
    assert At(visits[a.caller]) == Pos(a.x, a.y) && At(visits[b.caller]) == Pos(b.x, b.y);
    PaintedKeeps(steps, i, j);
    assert Pos(a.x, a.y) in StampCells(a.x, a.y, a.direction);
    assert Target(a) in StampCells(a.x, a.y, a.direction);
    if Mid(a) == Mid(b) {
      MidpointsMeet(a, b, root);
    }
  }

  /**
   * In a carve rooted at `root`, no two stamps paint the same middle cell,
   * so two carved segments meet at most at their end cells.
   */
  lemma StampsApart(visits: seq<Visit>, steps: seq<Step>, width: int, height: int, cap: nat, root: Pos)
    requires CarveTree(visits, width, height, cap) && StampLog(visits, steps, width, height, cap)
    requires |visits| > 0 ==> At(visits[0]) == root
    requires forall k :: 0 < k < |visits| ==> visits[k].depth > 0
    ensures forall i, j :: 0 <= i < j < |steps| ==>
      IsDirection(steps[i].direction) && IsDirection(steps[j].direction) && Mid(steps[i]) != Mid(steps[j])
  {
    CarveTreeParity(visits, width, height, cap, root);
    forall i, j | 0 <= i < j < |steps|
      ensures IsDirection(steps[i].direction) && IsDirection(steps[j].direction) && Mid(steps[i]) != Mid(steps[j])
    {
      StampPairApart(visits, steps, width, height, cap, root, i, j);
    }
  }

  /** Stamps past index n made by other calls leave a call's own stamps as they were at n. */
  lemma OwnAfter(log: seq<Step>, n: nat, caller: int)
    requires n <= |log|
    requires forall j :: n <= j < |log| ==> log[j].caller != caller
    ensures Own(log, caller) == Own(log[..n], caller)
  {
    var more := log[n..];
    assert log == log[..n] + more;
    forall j | 0 <= j < |more|
      ensures more[j].caller != caller
    {
      assert more[j] == log[n + j];
    }
    OwnNone(more, caller);
    OwnAppend(log[..n], more, caller);
  }

  /** The directions of the stamps made by call `caller`, in the order they were made. */
  function Own(steps: seq<Step>, caller: int): seq<int> {
    if steps == [] then []
    else
      var s := steps[|steps| - 1];
      Own(steps[..|steps| - 1], caller) + (if s.caller == caller then [s.direction] else [])
  }

  /** A call's own stamps in a log split in two are its stamps in each part. */
  lemma {:induction false} OwnAppend(a: seq<Step>, b: seq<Step>, caller: int)
    ensures Own(a + b, caller) == Own(a, caller) + Own(b, caller)
    decreases |b|
  {
    if b == [] {
      assert a + b == a;
    } else {
      var n := |b| - 1;
      OwnAppend(a, b[..n], caller);
      assert (a + b)[..|a + b| - 1] == a + b[..n];
    }
  }

  /** Stamps made by other calls contribute nothing to a call's own stamps. */
  lemma {:induction false} OwnNone(steps: seq<Step>, caller: int)
    requires forall j :: 0 <= j < |steps| ==> steps[j].caller != caller
    ensures Own(steps, caller) == []
    decreases |steps|
  {
    if steps != [] {
      OwnNone(steps[..|steps| - 1], caller);
    }
  }

  /** The entries of `ds` whose flag in `taken` is set, in their order in `ds`. */
  function Select(ds: seq<int>, taken: seq<bool>): seq<int>
    requires |ds| == |taken|
  {
    if ds == [] then []
    else
      var n := |ds| - 1;
      Select(ds[..n], taken[..n]) + (if taken[n] then [ds[n]] else [])
  }

  /** One more round: selecting from one more entry appends it when its flag is set. */
  lemma SelectStep(ds: seq<int>, i: nat, taken: seq<bool>, flag: bool, base: seq<int>, before: seq<int>, after: seq<int>)
    requires i < |ds| && |taken| == i
    requires before == base + Select(ds[..i], taken)
    requires after == before + (if flag then [ds[i]] else [])
    ensures after == base + Select(ds[..i + 1], taken + [flag])
  {
    assert ds[..i + 1][..i] == ds[..i];
    assert (taken + [flag])[..i] == taken;
  }

  /**
   * The order in which one call tries the directions: the loop adds its
   * counter to the direction each round, so round i tries the starting
   * direction plus 0 + 1 + ... + i, modulo 4.
   */
  function TriedDirection(direction: int, i: nat): (d: int)
    ensures IsDirection(d)
  {
    if i == 0 then direction % 4 else (TriedDirection(direction, i - 1) + i) % 4
  }

  /** The four rounds try d, d + 1, d + 3 and d + 2 (modulo 4), which is not clockwise. */
  lemma TriedOrder(direction: int)
    ensures TriedDirection(direction, 0) == direction % 4
    ensures TriedDirection(direction, 1) == (direction + 1) % 4
    ensures TriedDirection(direction, 2) == (direction + 3) % 4
    ensures TriedDirection(direction, 3) == (direction + 2) % 4
  {
  }

  /** The directions of the four rounds of one call, in the order they are tried. */
  function Rounds(direction: int): seq<int> {
    [TriedDirection(direction, 0), TriedDirection(direction, 1),
     TriedDirection(direction, 2), TriedDirection(direction, 3)]
  }

  /**
   * The loop's own update, adding the round counter to the previous
   * direction, yields the next entry of Rounds.
   */
  lemma TriedStep(direction: int, i: nat, d: int)
    requires i < 4
    requires i == 0 ==> d == direction
    requires 0 < i ==> d == Rounds(direction)[i - 1]
    ensures (d + i) % 4 == Rounds(direction)[i]
  {
  }

  /** The four rounds try every direction exactly once. */
  lemma TriedEachOnce(direction: int)
    ensures forall i, j :: 0 <= i < j < 4 ==> Rounds(direction)[i] != Rounds(direction)[j]
    ensures forall d :: IsDirection(d) <==> d in Rounds(direction)
  {
    TriedOrder(direction);
  }
}
