/** The O(NP) comparison as a recurrence: the furthest row reached on each diagonal
    at each level p, the back-pointer trail behind it, and why both are right. */
module Onp {
  import opened EditGraph

  /** Follow equal elements down a diagonal from (x, y); the row where that stops. */
  ghost function Slide<T>(a: seq<T>, b: seq<T>, x: int, y: int): (r: int)
    ensures r >= y
    ensures r > y ==> 0 <= x && x + (r - y) <= |a| && 0 <= y && r <= |b|
    ensures !(0 <= x + (r - y) < |a| && 0 <= r < |b| && a[x + (r - y)] == b[r])
    decreases |b| - y
  {
    if 0 <= x < |a| && 0 <= y < |b| && a[x] == b[y] then Slide(a, b, x + 1, y + 1) else y
  }

  ghost function Delta<T>(a: seq<T>, b: seq<T>): int { |b| - |a| }

  /** Levels from which diagonal k takes its two neighbours during the sweeps of
      level p: the sweeps move towards diagonal delta from both sides. */
  function LeftLevel(delta: int, p: int, k: int): int { if k <= delta then p else p - 1 }

  function RightLevel(delta: int, p: int, k: int): int { if k < delta then p - 1 else p }

  function Rank(delta: int, p: int, k: int): int {
    if k < delta then k + p else if k > delta then delta + p - k else delta + p + 1
  }

  ghost predicate InSweep<T>(a: seq<T>, b: seq<T>, p: int, k: int) {
    0 <= p && -p <= k <= Delta(a, b) + p
  }

  /** The row stored for diagonal k when level p is done; -1 when nothing is stored. */
  ghost function Furthest<T>(a: seq<T>, b: seq<T>, p: int, k: int): (y: int)
    requires |a| <= |b|
    ensures y >= -1
    ensures y >= 0 <==> InSweep(a, b, p, k)
    decreases p, Rank(Delta(a, b), p, k)
  {
    if !InSweep(a, b, p, k) then -1
    else
      var delta := Delta(a, b);
      var above := Furthest(a, b, LeftLevel(delta, p, k), k - 1) + 1;
      var below := Furthest(a, b, RightLevel(delta, p, k), k + 1);
      Slide(a, b, Max(above, below) - k, Max(above, below))
  }

  /** Deletions a full path through (x, y) cannot avoid. */
  ghost function Cost<T>(a: seq<T>, b: seq<T>, x: nat, y: nat): nat
    requires x <= |a| && y <= |b|
  {
    MinDel(a, b, x, y) + Max(0, y - x - Delta(a, b))
  }

  /** Row y of diagonal k is in the grid and can be reached at cost at most p. */
  ghost predicate Reachable<T>(a: seq<T>, b: seq<T>, p: int, k: int, y: int) {
    |a| <= |b| && 0 <= y - k <= |a| && 0 <= y <= |b| && Cost(a, b, y - k, y) <= p
  }

  lemma {:induction false} SlideStaysReachable<T>(a: seq<T>, b: seq<T>, p: int, k: int, y: int)
    requires Reachable(a, b, p, k, y)
    ensures Reachable(a, b, p, k, Slide(a, b, y - k, y))
    decreases |b| - y
  {
    if y - k < |a| && y < |b| && a[y - k] == b[y] {
      MinDelSteps(a, b, y - k, y);
      SlideStaysReachable(a, b, p, k, y + 1);
    }
  }

  /** One insertion from a point of the left diagonal stays in the grid and in budget. */
  lemma InsertStep<T>(a: seq<T>, b: seq<T>, p: int, k: int, y: int)
    requires Reachable(a, b, LeftLevel(Delta(a, b), p, k), k - 1, y)
    requires MinDel(a, b, |a|, |b|) >= p
    ensures Reachable(a, b, p, k, y + 1)
  {
    MinDelToCorner(a, b, y - (k - 1), y);
    MinDelSteps(a, b, y - (k - 1), y);
  }

  /** One deletion from a point of the right diagonal stays in the grid and in budget. */
  lemma DeleteStep<T>(a: seq<T>, b: seq<T>, p: int, k: int, y: int)
    requires Reachable(a, b, RightLevel(Delta(a, b), p, k), k + 1, y)
    requires MinDel(a, b, |a|, |b|) >= p
    ensures Reachable(a, b, p, k, y)
  {
    MinDelToCorner(a, b, y - (k + 1), y);
    MinDelSteps(a, b, y - (k + 1), y);
  }

  /** The start of the slide on diagonal k at level p. */
  ghost function SlideFrom<T>(a: seq<T>, b: seq<T>, p: int, k: int): int
    requires |a| <= |b| && InSweep(a, b, p, k)
  {
    Max(Furthest(a, b, LeftLevel(Delta(a, b), p, k), k - 1) + 1, Furthest(a, b, RightLevel(Delta(a, b), p, k), k + 1))
  }

  ghost predicate FromLeft<T>(a: seq<T>, b: seq<T>, p: int, k: int)
    requires |a| <= |b|
  {
    Furthest(a, b, LeftLevel(Delta(a, b), p, k), k - 1) + 1 > Furthest(a, b, RightLevel(Delta(a, b), p, k), k + 1)
  }

  lemma FurthestUnfold<T>(a: seq<T>, b: seq<T>, p: int, k: int)
    requires |a| <= |b| && InSweep(a, b, p, k)
    ensures var delta, y := Delta(a, b), SlideFrom(a, b, p, k);
      && Furthest(a, b, p, k) == Slide(a, b, y - k, y)
      && (if !FromLeft(a, b, p, k) then
            InSweep(a, b, RightLevel(delta, p, k), k + 1) && y == Furthest(a, b, RightLevel(delta, p, k), k + 1)
          else if InSweep(a, b, LeftLevel(delta, p, k), k - 1) then
            y == Furthest(a, b, LeftLevel(delta, p, k), k - 1) + 1
          else
            p == k == y == 0)
  {
  }

  lemma OriginReachable<T>(a: seq<T>, b: seq<T>)
    requires |a| <= |b|
    ensures Reachable(a, b, 0, 0, 0)
  {
  }

  /** While the corner is out of reach of level p - 1, every stored point of level p
      lies inside the grid and is reachable at cost at most p. */
  lemma {:induction false} FurthestIsReachable<T>(a: seq<T>, b: seq<T>, p: int, k: int)
    requires |a| <= |b| && InSweep(a, b, p, k)
    requires MinDel(a, b, |a|, |b|) >= p
    ensures Reachable(a, b, p, k, Furthest(a, b, p, k))
    decreases p, Rank(Delta(a, b), p, k)
  {
    hide Furthest, SlideFrom, FromLeft, Reachable, MinDel;
    FurthestUnfold(a, b, p, k);
    OriginReachable(a, b);
    var l, r := LeftLevel(Delta(a, b), p, k), RightLevel(Delta(a, b), p, k);
    var y := SlideFrom(a, b, p, k);
    if !FromLeft(a, b, p, k) {
      FurthestIsReachable(a, b, r, k + 1);
      DeleteStep(a, b, p, k, y);
    } else if InSweep(a, b, l, k - 1) {
      FurthestIsReachable(a, b, l, k - 1);
      InsertStep(a, b, p, k, y - 1);
    }
    SlideStaysReachable(a, b, p, k, y);
  }

  /** How the cheapest way to a point ends. */
  lemma LastMove<T>(a: seq<T>, b: seq<T>, k: int, y: nat)
    requires |a| <= |b| && 0 <= y - k <= |a| && y <= |b| && y - k + y > 0
    ensures (y - k > 0 && Cost(a, b, y - k - 1, y) == Cost(a, b, y - k, y) + RightLevel(Delta(a, b), 0, k))
         || (y > 0 && Cost(a, b, y - k, y - 1) == Cost(a, b, y - k, y) + LeftLevel(Delta(a, b), 0, k))
         || (y - k > 0 && y > 0 && a[y - k - 1] == b[y - 1] && Cost(a, b, y - k - 1, y - 1) == Cost(a, b, y - k, y))
  {
  }

  lemma FurthestStep<T>(a: seq<T>, b: seq<T>, p: int, k: int)
    requires |a| <= |b| && InSweep(a, b, p, k)
    ensures var delta, y := Delta(a, b), Furthest(a, b, p, k);
      && y >= Furthest(a, b, LeftLevel(delta, p, k), k - 1) + 1
      && y >= Furthest(a, b, RightLevel(delta, p, k), k + 1)
      && !(0 <= y - k < |a| && 0 <= y < |b| && a[y - k] == b[y])
  {
  }

  /** No point of cost at most p lies beyond the one stored at level p. */
  lemma {:induction false} FurthestIsFurthest<T>(a: seq<T>, b: seq<T>, p: int, k: int, y: nat)
    requires |a| <= |b| && 0 <= y - k <= |a| && y <= |b|
    requires Cost(a, b, y - k, y) <= p
    ensures y <= Furthest(a, b, p, k)
    decreases p, Rank(Delta(a, b), p, k), y
  {
    hide MinDel, Furthest;
    var delta := Delta(a, b);
    assert InSweep(a, b, p, k);
    FurthestStep(a, b, p, k);
    if y - k + y > 0 {
      LastMove(a, b, k, y);
      if y - k > 0 && Cost(a, b, y - k - 1, y) == Cost(a, b, y - k, y) + RightLevel(delta, 0, k) {
        assert y - k - 1 == y - (k + 1);
        FurthestIsFurthest(a, b, RightLevel(delta, p, k), k + 1, y);
      } else if y > 0 && Cost(a, b, y - k, y - 1) == Cost(a, b, y - k, y) + LeftLevel(delta, 0, k) {
        assert y - k == y - 1 - (k - 1);
        FurthestIsFurthest(a, b, LeftLevel(delta, p, k), k - 1, y - 1);
      } else {
        assert y - k - 1 == y - 1 - k;
        FurthestIsFurthest(a, b, p, k, y - 1);
      }
    }
  }

  /** The sweeps reach the corner at level MinDel and not before. */
  lemma CornerLevel<T>(a: seq<T>, b: seq<T>, p: nat)
    requires |a| <= |b| && p <= MinDel(a, b, |a|, |b|)
    ensures Furthest(a, b, p, Delta(a, b)) == |b| <==> p == MinDel(a, b, |a|, |b|)
  {
    FurthestIsReachable(a, b, p, Delta(a, b));
    if p == MinDel(a, b, |a|, |b|) {
      FurthestIsFurthest(a, b, p, Delta(a, b), |b|);
    }
  }

  // ----- back pointers

  datatype Point = Point(x: int, y: int)

  /** The recorded points behind diagonal k at level p, latest first. */
  ghost function Trail<T>(a: seq<T>, b: seq<T>, p: int, k: int): seq<Point>
    requires |a| <= |b|
    decreases p, Rank(Delta(a, b), p, k)
  {
    if !InSweep(a, b, p, k) then []
    else
      var delta := Delta(a, b);
      var l, r := LeftLevel(delta, p, k), RightLevel(delta, p, k);
      var y := Furthest(a, b, p, k);
      [Point(y - k, y)] + if Furthest(a, b, l, k - 1) + 1 > Furthest(a, b, r, k + 1)
                          then Trail(a, b, l, k - 1) else Trail(a, b, r, k + 1)
  }

  /** The moves that the recorder makes from (x, y) towards one recorded point. */
  function MovesTo(x: int, y: int, t: Point): seq<Move>
    decreases Max(0, t.x - x) + Max(0, t.y - y)
  {
    if x >= t.x && y >= t.y then []
    else if t.y - t.x > y - x then [Ins] + MovesTo(x, y + 1, t)
    else if t.y - t.x < y - x then [Del] + MovesTo(x + 1, y, t)
    else [Com] + MovesTo(x + 1, y + 1, t)
  }

  function Start(trail: seq<Point>): Point {
    if |trail| > 1 then trail[1] else Point(0, 0)
  }

  /** Replaying a trail, oldest point first. */
  function Replay(trail: seq<Point>): seq<Move> {
    if trail == [] then []
    else Replay(trail[1..]) + MovesTo(Start(trail).x, Start(trail).y, trail[0])
  }

  lemma MovesToNext(moves: seq<Move>, m: Move, x: int, y: int, x': int, y': int, t: Point)
    requires MovesTo(x, y, t) == [m] + MovesTo(x', y', t)
    ensures moves + MovesTo(x, y, t) == (moves + [m]) + MovesTo(x', y', t)
  {
  }

  /** Replaying along one diagonal over equal elements extends a path. */
  lemma {:induction false} ReplaySlide<T>(a: seq<T>, b: seq<T>, moves: seq<Move>, x: int, y: int, d: int)
    requires Reaches(a, b, moves, x, y, d)
    ensures var r := Slide(a, b, x, y); var t := Point(x + (r - y), r);
      Reaches(a, b, moves + MovesTo(x, y, t), t.x, t.y, d)
    decreases |b| - y
  {
    hide Reaches;
    var r := Slide(a, b, x, y);
    var t := Point(x + (r - y), r);
    ReachesSnoc(a, b, moves, x, y, d, Com);
    if x < |a| && y < |b| && a[x] == b[y] {
      MovesToNext(moves, Com, x, y, x + 1, y + 1, t);
      ReplaySlide(a, b, moves + [Com], x + 1, y + 1, d);
    } else {
      assert moves + MovesTo(x, y, t) == moves;
    }
  }

  /** Replaying `trail` is a path to row y of diagonal k with the deletions of level p. */
  ghost predicate ReplaysTo<T>(a: seq<T>, b: seq<T>, trail: seq<Point>, p: int, k: int, y: int) {
    && trail != [] && trail[0] == Point(y - k, y)
    && Reaches(a, b, Replay(trail), y - k, y, p - Max(0, k - Delta(a, b)))
  }

  lemma ReplayCons(t: Point, trail: seq<Point>)
    requires trail != []
    ensures Replay([t] + trail) == Replay(trail) + MovesTo(trail[0].x, trail[0].y, t)
  {
    assert ([t] + trail)[1..] == trail;
  }

  lemma ReplayInsert<T>(a: seq<T>, b: seq<T>, trail: seq<Point>, p: int, k: int, y: int)
    requires ReplaysTo(a, b, trail, LeftLevel(Delta(a, b), p, k), k - 1, y - 1)
    requires Reachable(a, b, p, k, y)
    ensures var r := Slide(a, b, y - k, y); ReplaysTo(a, b, [Point(r - k, r)] + trail, p, k, r)
  {
    hide Reaches, MovesTo, Replay, MinDel;
    var r := Slide(a, b, y - k, y);
    var t := Point(r - k, r);
    var moves := Replay(trail);
    var d := p - Max(0, k - Delta(a, b));
    ReachesSnoc(a, b, moves, y - k, y - 1, d, Ins);
    ReplaySlide(a, b, moves + [Ins], y - k, y, d);
    MovesToInsert(y - k, y - 1, t);
    MovesToNext(moves, Ins, y - k, y - 1, y - k, y, t);
    ReplayCons(t, trail);
  }

  lemma MovesToInsert(x: int, y: int, t: Point)
    requires t.y - t.x > y - x && y < t.y
    ensures MovesTo(x, y, t) == [Ins] + MovesTo(x, y + 1, t)
  {
  }

  lemma MovesToDelete(x: int, y: int, t: Point)
    requires t.y - t.x < y - x && x < t.x
    ensures MovesTo(x, y, t) == [Del] + MovesTo(x + 1, y, t)
  {
  }

  lemma ReplayDelete<T>(a: seq<T>, b: seq<T>, trail: seq<Point>, p: int, k: int, y: int)
    requires ReplaysTo(a, b, trail, RightLevel(Delta(a, b), p, k), k + 1, y)
    requires Reachable(a, b, p, k, y)
    ensures var r := Slide(a, b, y - k, y); ReplaysTo(a, b, [Point(r - k, r)] + trail, p, k, r)
  {
    hide Reaches, MovesTo, Replay, MinDel;
    var r := Slide(a, b, y - k, y);
    var t := Point(r - k, r);
    var moves := Replay(trail);
    var d := p - Max(0, k - Delta(a, b));
    ReachesSnoc(a, b, moves, y - k - 1, y, d - 1, Del);
    ReplaySlide(a, b, moves + [Del], y - k, y, d);
    MovesToDelete(y - k - 1, y, t);
    MovesToNext(moves, Del, y - k - 1, y, y - k, y, t);
    ReplayCons(t, trail);
  }

  lemma ReplayFirst<T>(a: seq<T>, b: seq<T>)
    requires |a| <= |b|
    ensures var r := Slide(a, b, 0, 0); ReplaysTo(a, b, [Point(r, r)], 0, 0, r)
  {
    var r := Slide(a, b, 0, 0);
    ReplaySlide(a, b, [], 0, 0, 0);
    assert Replay([Point(r, r)]) == [] + MovesTo(0, 0, Point(r, r)) by {
      assert [Point(r, r)][1..] == [];
    }
  }

  lemma TrailUnfold<T>(a: seq<T>, b: seq<T>, p: int, k: int)
    requires |a| <= |b| && InSweep(a, b, p, k)
    ensures var l, r := LeftLevel(Delta(a, b), p, k), RightLevel(Delta(a, b), p, k);
      var y := Furthest(a, b, p, k);
      Trail(a, b, p, k)
      == if !FromLeft(a, b, p, k) then [Point(y - k, y)] + Trail(a, b, r, k + 1)
         else if InSweep(a, b, l, k - 1) then [Point(y - k, y)] + Trail(a, b, l, k - 1)
         else [Point(y - k, y)]
  {
    hide Furthest;
    assert !InSweep(a, b, LeftLevel(Delta(a, b), p, k), k - 1)
      ==> Trail(a, b, LeftLevel(Delta(a, b), p, k), k - 1) == [];
  }

  /** Replaying the trail of a stored point is a path to that point, and its number of
      deletions is exactly what the level says. */
  lemma {:induction false} TrailReplays<T>(a: seq<T>, b: seq<T>, p: int, k: int)
    requires |a| <= |b| && InSweep(a, b, p, k)
    requires MinDel(a, b, |a|, |b|) >= p
    ensures ReplaysTo(a, b, Trail(a, b, p, k), p, k, Furthest(a, b, p, k))
    decreases p, Rank(Delta(a, b), p, k)
  {
    hide Furthest, SlideFrom, FromLeft, Trail, ReplaysTo, Reachable, MinDel;
    FurthestUnfold(a, b, p, k);
    TrailUnfold(a, b, p, k);
    var l, r := LeftLevel(Delta(a, b), p, k), RightLevel(Delta(a, b), p, k);
    var y := SlideFrom(a, b, p, k);
    if !FromLeft(a, b, p, k) {
      TrailReplays(a, b, r, k + 1);
      FurthestIsReachable(a, b, r, k + 1);
      DeleteStep(a, b, p, k, y);
      ReplayDelete(a, b, Trail(a, b, r, k + 1), p, k, y);
    } else if InSweep(a, b, l, k - 1) {
      TrailReplays(a, b, l, k - 1);
      FurthestIsReachable(a, b, l, k - 1);
      InsertStep(a, b, p, k, y - 1);
      ReplayInsert(a, b, Trail(a, b, l, k - 1), p, k, y);
    } else {
      ReplayFirst(a, b);
    }
  }
}
