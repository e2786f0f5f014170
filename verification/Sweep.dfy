/** The mutable tables of the comparison - rows `fp`, back pointers `path` and
    recorded coordinates - as values, and what one table update means. */
module Sweep {
  import opened EditGraph
  import opened Onp

  /** A recorded coordinate; `k` is the index of its predecessor, -1 for none. */
  datatype P = P(x: int, y: int, k: int)

  /** The points behind entry `r`, latest first; empty once the chain is broken. */
  function TrailOf(pc: seq<P>, r: int): seq<Point>
    decreases r
  {
    if 0 <= r < |pc| && pc[r].k < r then [Point(pc[r].x, pc[r].y)] + TrailOf(pc, pc[r].k) else []
  }

  /** Every back pointer leads strictly down. */
  ghost predicate Linked(pc: seq<P>) {
    forall i :: 0 <= i < |pc| ==> -1 <= pc[i].k < i
  }

  lemma {:induction false} TrailOfGrows(pc: seq<P>, p: P, r: int)
    requires r < |pc|
    ensures TrailOf(pc + [p], r) == TrailOf(pc, r)
    decreases r
  {
    if 0 <= r && pc[r].k < r {
      TrailOfGrows(pc, p, pc[r].k);
    }
  }

  /** Diagonal k holds what level q of the recurrence says. */
  ghost predicate Cell<T>(a: seq<T>, b: seq<T>, f: int, r: int, pc: seq<P>, q: int, k: int, withPath: bool)
    requires |a| <= |b|
  {
    f == Furthest(a, b, q, k) && (withPath ==> -1 <= r < |pc| && TrailOf(pc, r) == Trail(a, b, q, k))
  }

  /** Level of table index i while the sweeps of level p have done [0, lo) and (hi, ..). */
  function LevelAt(p: int, lo: int, hi: int, i: int): int { if i < lo || i > hi then p else p - 1 }

  ghost predicate Tables<T>(a: seq<T>, b: seq<T>, fp: seq<int>,
      path: seq<int>, pc: seq<P>, p: int, lo: int, hi: int, withPath: bool)
  {
    && |a| <= |b| && |fp| == |a| + |b| + 3 <= |path|
    && Linked(pc)
    && forall i :: 0 <= i < |fp| ==> Cell(a, b, fp[i], path[i], pc, LevelAt(p, lo, hi, i), i - |a| - 1, withPath)
  }

  lemma OutsideSweep<T>(a: seq<T>, b: seq<T>, p: int, k: int)
    requires |a| <= |b| && !InSweep(a, b, p, k)
    ensures Furthest(a, b, p, k) == -1 && Trail(a, b, p, k) == []
    ensures Furthest(a, b, p - 1, k) == -1 && Trail(a, b, p - 1, k) == []
  {
  }

  /** Fresh tables, filled with -1, are the tables of level -1. */
  lemma FreshTables<T>(a: seq<T>, b: seq<T>, fp: seq<int>, path: seq<int>, pc: seq<P>, withPath: bool)
    requires |a| <= |b| && |fp| == |a| + |b| + 3 <= |path| && Linked(pc)
    requires forall i :: 0 <= i < |fp| ==> fp[i] == -1
    requires forall i :: 0 <= i < |path| ==> path[i] == -1
    ensures Tables(a, b, fp, path, pc, 0, 0, |fp|, withPath)
  {
    forall i | 0 <= i < |fp|
      ensures Cell(a, b, fp[i], path[i], pc, LevelAt(0, 0, |fp|, i), i - |a| - 1, withPath)
    {
    }
  }

  /** Moving a cursor over diagonals that neither level has touched. */
  lemma MoveCursors<T>(a: seq<T>, b: seq<T>, fp: seq<int>, path: seq<int>, pc: seq<P>,
                       p: int, lo: int, hi: int, p': int, lo': int, hi': int, withPath: bool)
    requires Tables(a, b, fp, path, pc, p, lo, hi, withPath)
    requires forall i :: 0 <= i < |fp| ==>
      var q, q' := LevelAt(p, lo, hi, i), LevelAt(p', lo', hi', i);
      q' == q || (q' == q + 1 && !InSweep(a, b, q', i - |a| - 1))
    ensures Tables(a, b, fp, path, pc, p', lo', hi', withPath)
  {
    hide Furthest, Trail, InSweep;
    forall i | 0 <= i < |fp|
      ensures Cell(a, b, fp[i], path[i], pc, LevelAt(p', lo', hi', i), i - |a| - 1, withPath)
    {
      var q, q' := LevelAt(p, lo, hi, i), LevelAt(p', lo', hi', i);
      assert Cell(a, b, fp[i], path[i], pc, q, i - |a| - 1, withPath);
      if q' != q {
        OutsideSweep(a, b, q', i - |a| - 1);
      }
    }
  }

  /** The row and the back pointer that a step on diagonal k must store, given what
      its two neighbours hold. */
  lemma StepCell<T>(a: seq<T>, b: seq<T>, left: int, leftPath: int, right: int, rightPath: int, pc: seq<P>,
                    p: int, k: int, withPath: bool)
    requires |a| <= |b| && InSweep(a, b, p, k)
    requires Cell(a, b, left, leftPath, pc, LeftLevel(Delta(a, b), p, k), k - 1, withPath)
    requires Cell(a, b, right, rightPath, pc, RightLevel(Delta(a, b), p, k), k + 1, withPath)
    ensures var y, r := Max(left + 1, right), if left + 1 > right then leftPath else rightPath;
      && Furthest(a, b, p, k) == Slide(a, b, y - k, y)
      && (withPath ==> -1 <= r < |pc|)
      && (withPath ==> Trail(a, b, p, k) == [Point(Furthest(a, b, p, k) - k, Furthest(a, b, p, k))] + TrailOf(pc, r))
  {
    hide Furthest, Trail, InSweep, Slide, TrailOf;
    FurthestUnfold(a, b, p, k);
    TrailUnfold(a, b, p, k);
    if !InSweep(a, b, LeftLevel(Delta(a, b), p, k), k - 1) {
      OutsideSweep(a, b, LeftLevel(Delta(a, b), p, k), k - 1);
    }
  }

  lemma StepValue<T>(a: seq<T>, b: seq<T>, fp: seq<int>, path: seq<int>, pc: seq<P>,
                     p: int, lo: int, hi: int, k: int, withPath: bool)
    requires Tables(a, b, fp, path, pc, p, lo, hi, withPath)
    requires InSweep(a, b, p, k) && -|a| <= k <= |b|
    requires LevelAt(p, lo, hi, k + |a|) == LeftLevel(Delta(a, b), p, k)
    requires LevelAt(p, lo, hi, k + |a| + 2) == RightLevel(Delta(a, b), p, k)
    ensures var left, right := fp[k + |a|], fp[k + |a| + 2];
      var y, r := Max(left + 1, right), if left + 1 > right then path[k + |a|] else path[k + |a| + 2];
      && Furthest(a, b, p, k) == Slide(a, b, y - k, y)
      && (withPath ==> -1 <= r < |pc|)
      && (withPath ==> Trail(a, b, p, k) == [Point(Furthest(a, b, p, k) - k, Furthest(a, b, p, k))] + TrailOf(pc, r))
  {
    hide Furthest, Trail, InSweep, Slide, TrailOf, Cell;
    assert Cell(a, b, fp[k + |a|], path[k + |a|], pc, LevelAt(p, lo, hi, k + |a|), k - 1, withPath);
    assert Cell(a, b, fp[k + |a| + 2], path[k + |a| + 2], pc, LevelAt(p, lo, hi, k + |a| + 2), k + 1, withPath);
    StepCell(a, b, fp[k + |a|], path[k + |a|], fp[k + |a| + 2], path[k + |a| + 2], pc, p, k, withPath);
  }

  /** A diagonal that is not stepped keeps its cell while a coordinate is recorded. */
  lemma KeptCell<T>(a: seq<T>, b: seq<T>, f: int, r: int, pc: seq<P>, x: P, q: int, k: int, withPath: bool)
    requires |a| <= |b| && Cell(a, b, f, r, pc, q, k, withPath)
    ensures Cell(a, b, f, r, if withPath then pc + [x] else pc, q, k, withPath)
  {
    hide Furthest, Trail, TrailOf;
    if withPath {
      TrailOfGrows(pc, x, r);
    }
  }

  /** The stepped diagonal points to the coordinate just recorded. */
  lemma NewCell<T>(a: seq<T>, b: seq<T>, pc: seq<P>, q: int, k: int, withPath: bool, y: int, r: int)
    requires |a| <= |b| && y == Furthest(a, b, q, k)
    requires withPath ==> -1 <= r < |pc| && Trail(a, b, q, k) == [Point(y - k, y)] + TrailOf(pc, r)
    ensures Cell(a, b, y, |pc|, if withPath then pc + [P(y - k, y, r)] else pc, q, k, withPath)
  {
    hide Furthest, Trail;
    if withPath {
      TrailOfGrows(pc, P(y - k, y, r), r);
    }
  }

  lemma StillLinked(pc: seq<P>, x: P)
    requires Linked(pc) && -1 <= x.k < |pc|
    ensures Linked(pc + [x])
  {
  }

  /** Storing the step turns diagonal k from level p - 1 to level p. */
  lemma StoreStep<T>(a: seq<T>, b: seq<T>, fp: seq<int>, path: seq<int>, pc: seq<P>, pc': seq<P>,
                     p: int, lo: int, hi: int, lo': int, hi': int, k: int, withPath: bool, y: int, r: int)
    requires Tables(a, b, fp, path, pc, p, lo, hi, withPath)
    requires -|a| <= k <= |b|
    requires forall j :: 0 <= j < |fp| && j != k + |a| + 1 ==> LevelAt(p, lo', hi', j) == LevelAt(p, lo, hi, j)
    requires LevelAt(p, lo', hi', k + |a| + 1) == p
    requires y == Furthest(a, b, p, k)
    requires withPath ==> pc' == pc + [P(y - k, y, r)] && -1 <= r < |pc|
    requires withPath ==> Trail(a, b, p, k) == [Point(y - k, y)] + TrailOf(pc, r)
    requires !withPath ==> pc' == pc
    ensures Tables(a, b, fp[k + |a| + 1 := y], path[k + |a| + 1 := |pc|], pc', p, lo', hi', withPath)
  {
    hide Furthest, Trail, TrailOf, Cell, Linked;
    var c, x := k + |a| + 1, P(y - k, y, r);
    var fp', path' := fp[c := y], path[c := |pc|];
    if withPath {
      StillLinked(pc, x);
    }
    forall i | 0 <= i < |fp|
      ensures Cell(a, b, fp'[i], path'[i], pc', LevelAt(p, lo', hi', i), i - |a| - 1, withPath)
    {
      assert Cell(a, b, fp[i], path[i], pc, LevelAt(p, lo, hi, i), i - |a| - 1, withPath);
      if i == c {
        NewCell(a, b, pc, p, k, withPath, y, r);
      } else {
        KeptCell(a, b, fp[i], path[i], pc, x, LevelAt(p, lo, hi, i), i - |a| - 1, withPath);
      }
    }
  }
}
