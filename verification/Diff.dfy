/** The comparison object: the O(NP) sweeps over mutable tables, the recorder, the
    restart on a coordinate cap, and patching. */
module DiffLibrary {
  import opened Scripts
  import opened ScriptContainer
  import opened EditGraph
  import opened Onp
  import opened Rounds
  import opened Sweep
  import opened Hunks
  import opened LineNumbers
  import HunkComposer

  class Diff<T(==)> {
    ghost const before: seq<T>
    ghost const after: seq<T>
    var A: seq<T>
    var B: seq<T>
    var M: nat
    var N: nat
    var delta: int
    var offset: int
    var fp: array?<int>
    var editDistance: int
    var lcs: seq<T>
    const ses: Ses<T>
    var path: seq<int>
    var pathCordinates: seq<P>
    var uniHunks: seq<UniHunk<T>>
    const swapped: bool
    var trivial: bool
    var editDistanceOnly: bool
    /** The limit on recorded coordinates (MAX_CORDINATES_SIZE). */
    const cap: nat

    /** Sizes and the diagonal of the corner fit the sequences held. */
    ghost predicate Sized()
      reads `A, `B, `M, `N, `delta, `offset
    {
      M == |A| <= |B| == N && delta == N - M && offset == M + 1
    }

    /** Nothing has been compared yet. */
    ghost predicate Fresh()
      reads this, ses
    {
      && Sized() && cap >= 2
      && swapped == (|before| >= |after|)
      && A == (if swapped then after else before) && B == (if swapped then before else after)
      && ses.Valid() && ses.calls == [] && lcs == [] && editDistance == 0 && pathCordinates == [] && uniHunks == []
    }

    constructor (a: seq<T>, b: seq<T>, deletesFirst: bool, cap: nat)
      requires cap >= 2
      ensures Fresh() && fresh(ses) && before == a && after == b && this.cap == cap
      ensures !trivial && !editDistanceOnly && ses.deletesFirst == deletesFirst
    {
      before, after, this.cap := a, b, cap;
      ses := new Ses(deletesFirst);
      var m, n := |a|, |b|;
      if m < n {
        A, B, M, N, swapped := a, b, m, n, false;
      } else {
        A, B, M, N, swapped := b, a, n, m, true;
      }
      editDistance, lcs, path, pathCordinates, uniHunks := 0, [], [], [], [];
      delta, offset := (if m < n then n - m else m - n), (if m < n then m + 1 else n + 1);
      trivial, editDistanceOnly := false, false;
      fp := null;
    }

    method OnUnserious()
      requires Fresh()
      modifies `trivial
      ensures Fresh() && trivial
    {
      trivial := true;
    }

    method OnOnlyEditDistance()
      requires Fresh()
      modifies `editDistanceOnly
      ensures Fresh() && editDistanceOnly
    {
      editDistanceOnly := true;
    }

    /** Follow the better of two neighbours, slide, and record the coordinate. */
    method Snake(k: int, above: int, below: int) returns (y: int)
      requires Sized() && 0 <= k - 1 + offset && k + 1 + offset < |path|
      modifies `path, `pathCordinates
      ensures var from := Max(above, below); y == Slide(A, B, from - k, from)
      ensures path == old(path)[k + offset := |old(pathCordinates)|]
      ensures pathCordinates == old(pathCordinates) +
          if editDistanceOnly then []
          else [P(y - k, y, old(path)[if above > below then k - 1 + offset else k + 1 + offset])]
    {
      var r := if above > below then path[k - 1 + offset] else path[k + 1 + offset];
      y := Max(above, below);
      var x := y - k;
      while 0 <= x < M && 0 <= y < N && A[x] == B[y]
        invariant x == y - k
        invariant var from := Max(above, below); Slide(A, B, x, y) == Slide(A, B, from - k, from)
        decreases N - y
      {
        x, y := x + 1, y + 1;
      }
      path := path[k + offset := |pathCordinates|];
      if !editDistanceOnly {
        pathCordinates := pathCordinates + [P(x, y, r)];
      }
    }

    /** The tables hold levels p and p - 1 of the recurrence, split by the cursors. */
    ghost predicate TablesHold(p: int, lo: int, hi: int)
      requires fp != null
      reads `A, `B, `M, `N, `delta, `offset, `fp, `path, `pathCordinates, `editDistanceOnly, fp
    {
      Sized() && Tables(A, B, fp[..], path, pathCordinates, p, lo, hi, !editDistanceOnly)
    }

    lemma HoldsShape(p: int, lo: int, hi: int)
      requires fp != null && TablesHold(p, lo, hi)
      ensures Sized() && fp.Length == M + N + 3 <= |path|
    {
    }

    lemma MoveHolds(p: int, lo: int, hi: int, p': int, lo': int, hi': int)
      requires fp != null && TablesHold(p, lo, hi)
      requires forall i :: 0 <= i < fp.Length ==>
        var q, q' := LevelAt(p, lo, hi, i), LevelAt(p', lo', hi', i);
        q' == q || (q' == q + 1 && !InSweep(A, B, q', i - M - 1))
      ensures TablesHold(p', lo', hi')
    {
      MoveCursors(A, B, fp[..], path, pathCordinates, p, lo, hi, p', lo', hi', !editDistanceOnly);
    }

    /** One step of a sweep: diagonal k goes from level p - 1 to level p. */
    method Step(k: int, ghost p: int, ghost lo: int, ghost hi: int, ghost lo': int, ghost hi': int)
      requires fp != null && TablesHold(p, lo, hi)
      requires InSweep(A, B, p, k) && 0 <= k + M && k <= N
      requires LevelAt(p, lo, hi, k + M) == LeftLevel(delta, p, k)
      requires LevelAt(p, lo, hi, k + M + 2) == RightLevel(delta, p, k)
      requires forall j :: 0 <= j < fp.Length && j != k + M + 1 ==> LevelAt(p, lo', hi', j) == LevelAt(p, lo, hi, j)
      requires LevelAt(p, lo', hi', k + M + 1) == p
      modifies `path, `pathCordinates, fp
      ensures TablesHold(p, lo', hi') && |path| == old(|path|)
      ensures fp[k + offset] == Furthest(A, B, p, k)
      ensures |pathCordinates| == |old(pathCordinates)| + if editDistanceOnly then 0 else 1
    {
      hide Tables, Furthest, Trail, InSweep, Slide, LevelAt;
      ghost var fp0, path0, pc0 := fp[..], path, pathCordinates;
      TablesShape(A, B, fp0, path0, pc0, p, lo, hi, !editDistanceOnly);
      StepValue(A, B, fp0, path0, pc0, p, lo, hi, k, !editDistanceOnly);
      var above, below := fp[k - 1 + offset] + 1, fp[k + 1 + offset];
      assert above == fp0[k + M] + 1 && below == fp0[k + M + 2];
      var y := Snake(k, above, below);
      fp[k + offset] := y;
      assert fp[..] == fp0[k + M + 1 := y];
      ghost var r := if above > below then path0[k + M] else path0[k + M + 2];
      StoreStep(A, B, fp0, path0, pc0, pathCordinates, p, lo, hi, lo', hi', k, !editDistanceOnly, y, r);
    }

    /** The ascending sweep of level p: diagonals -p to delta - 1. */
    method SweepUp(p: nat)
      requires fp != null && Sized() && p <= M && TablesHold(p, M + 1 - p, M + N + 3)
      modifies `path, `pathCordinates, fp
      ensures TablesHold(p, delta + M + 1, M + N + 3) && |path| == old(|path|)
      ensures |pathCordinates| == |old(pathCordinates)| + if editDistanceOnly then 0 else delta + p
    {
      hide TablesHold, Furthest;
      ghost var n0 := |pathCordinates|;
      HoldsShape(p, M + 1 - p, M + N + 3);
      var k: int := 0 - p;
      while k <= delta - 1
        invariant 0 <= k + p && k <= delta
        invariant TablesHold(p, k + M + 1, M + N + 3)
        invariant |path| == old(|path|)
        invariant |pathCordinates| == n0 + if editDistanceOnly then 0 else k + p
      {
        Step(k, p, k + M + 1, M + N + 3, k + M + 2, M + N + 3);
        k := k + 1;
      }
    }

    /** The descending sweep of level p: diagonals delta + p down to delta + 1. */
    method SweepDown(p: nat)
      requires fp != null && Sized() && p <= M && TablesHold(p, delta + M + 1, delta + p + M + 1)
      modifies `path, `pathCordinates, fp
      ensures TablesHold(p, delta + M + 1, delta + M + 1) && |path| == old(|path|)
      ensures |pathCordinates| == |old(pathCordinates)| + if editDistanceOnly then 0 else p
    {
      hide TablesHold, Furthest;
      ghost var n0 := |pathCordinates|;
      HoldsShape(p, delta + M + 1, delta + p + M + 1);
      var k := delta + p;
      while k >= delta + 1
        invariant delta <= k <= delta + p
        invariant TablesHold(p, delta + M + 1, k + M + 1)
        invariant |path| == old(|path|)
        invariant |pathCordinates| == n0 + if editDistanceOnly then 0 else delta + p - k
        decreases k
      {
        Step(k, p, delta + M + 1, k + M + 1, delta + M + 1, k + M);
        k := k - 1;
      }
    }

    /** All sweeps of level p: towards diagonal delta from both sides, then delta. */
    method SweepLevel(p: nat)
      requires fp != null && TablesHold(p, 0, M + N + 3)
      requires Sized() && p <= MinDel(A, B, M, N)
      modifies `path, `pathCordinates, fp
      ensures TablesHold(p + 1, 0, M + N + 3) && |path| == old(|path|)
      ensures delta + offset < fp.Length && fp[delta + offset] == Furthest(A, B, p, delta)
      ensures |pathCordinates| == |old(pathCordinates)| + if editDistanceOnly then 0 else delta + 2 * p + 1
    {
      hide TablesHold, Furthest, MinDel;
      HoldsShape(p, 0, M + N + 3);
      MoveHolds(p, 0, M + N + 3, p, M + 1 - p, M + N + 3);
      SweepUp(p);
      MoveHolds(p, delta + M + 1, M + N + 3, p, delta + M + 1, delta + p + M + 1);
      SweepDown(p);
      Step(delta, p, delta + M + 1, delta + M + 1, delta + M + 2, delta + M + 1);
      MoveHolds(p, delta + M + 2, delta + M + 1, p + 1, 0, M + N + 3);
    }

    /** Sweep level after level until the corner is stored or the cap is reached. */
    method SearchRound() returns (p: nat)
      requires fp != null && Sized() && TablesHold(0, 0, M + N + 3) && pathCordinates == [] && cap >= 2
      modifies `path, `pathCordinates, fp
      ensures TablesHold(p + 1, 0, M + N + 3) && |path| == old(|path|)
      ensures p == if editDistanceOnly then MinDel(A, B, M, N) else StopLevel(A, B, cap, 0)
      ensures editDistanceOnly ==> pathCordinates == []
    {
      hide TablesHold, Furthest, MinDel, Coordinates, StopLevel;
      HoldsShape(0, 0, M + N + 3);
      CoordinatesStep(delta, 0);
      p := 0;
      SweepLevel(p);
      CornerLevel(A, B, p);
      while fp[delta + offset] != N && |pathCordinates| < cap
        invariant Sized() && TablesHold(p + 1, 0, M + N + 3) && fp.Length == M + N + 3
        invariant |path| == old(|path|)
        invariant p <= MinDel(A, B, M, N)
        invariant fp[delta + offset] == N <==> p == MinDel(A, B, M, N)
        invariant |pathCordinates| == if editDistanceOnly then 0 else Coordinates(delta, p)
        invariant !editDistanceOnly ==> StopLevel(A, B, cap, 0) == StopLevel(A, B, cap, p)
        decreases MinDel(A, B, M, N) - p
      {
        StopStep(A, B, cap, p);
        p := p + 1;
        SweepLevel(p);
        CoordinatesStep(delta, p);
        CornerLevel(A, B, p);
      }
      if !editDistanceOnly {
        StopStep(A, B, cap, p);
      }
    }

    method RecordOddSequence(from: int, length: int, s: seq<T>, at: nat, kind: EditKind)
      requires ses.Valid() && from <= length && at + (length - from) < |s|
      modifies `editDistance, ses
      ensures ses.Valid()
      ensures ses.calls == old(ses.calls) + Leftover(s[at..at + (length - from) + 1], from, kind)
      ensures editDistance == old(editDistance) + length - from + 1
    {
      hide Leftover, Ses.Valid;
      var idx, it := from, at;
      assert Leftover(s[at..it], from, kind) == [];
      while idx < length
        invariant from <= idx <= length && it == at + (idx - from)
        invariant ses.Valid() && ses.calls == old(ses.calls) + Leftover(s[at..it], from, kind)
        invariant editDistance == old(editDistance) + idx - from
      {
        ses.AddSequence(s[it], idx, 0, kind);
        LeftoverSnoc(s, at, it, from, kind);
        it, idx, editDistance := it + 1, idx + 1, editDistance + 1;
      }
      ses.AddSequence(s[it], idx, 0, kind);
      LeftoverSnoc(s, at, it, from, kind);
      editDistance := editDistance + 1;
    }

    /** What has been handed to the script and to the subsequence after `moves`. */
    ghost predicate Recorded(calls0: seq<SesElem<T>>, lcs0: seq<T>, moves: seq<Move>)
      reads this, ses
    {
      ses.Valid() && Sized() && RecordOf(A, B, swapped, moves, calls0, lcs0, ses.calls, lcs)
    }

    /** One replayed move: an insertion, a deletion or a common element. */
    method RecordMove(m: Move, xIdx: int, yIdx: int,
                      ghost calls0: seq<SesElem<T>>, ghost lcs0: seq<T>, ghost moves: seq<Move>)
      requires Recorded(calls0, lcs0, moves) && IsPath(A, B, moves + [m])
      requires xIdx == X(moves) + 1 && yIdx == Y(moves) + 1
      modifies `lcs, ses
      ensures Recorded(calls0, lcs0, moves + [m])
    {
      hide IsPath, Ses.Valid, X, Y, RecordOf;
      RecordSnoc(A, B, swapped, moves, calls0, lcs0, ses.calls, lcs, m);
      match m {
        case Ins =>
          if !swapped {
            ses.AddSequence(B[yIdx - 1], 0, yIdx, Add);
          } else {
            ses.AddSequence(B[yIdx - 1], yIdx, 0, Delete);
          }
        case Del =>
          if !swapped {
            ses.AddSequence(A[xIdx - 1], xIdx, 0, Delete);
          } else {
            ses.AddSequence(A[xIdx - 1], 0, xIdx, Add);
          }
        case Com =>
          if !swapped {
            lcs := lcs + [A[xIdx - 1]];
            ses.AddSequence(A[xIdx - 1], xIdx, yIdx, Common);
          } else {
            lcs := lcs + [B[yIdx - 1]];
            ses.AddSequence(B[yIdx - 1], yIdx, xIdx, Common);
          }
      }
    }

    /** Replay the recorded points, oldest first, towards each of them in turn. */
    method ReplayPoints(v: seq<Point>) returns (xIdx: int, yIdx: int)
      requires v != [] && Walkable(A, B, v) && Sized() && ses.Valid()
      modifies `lcs, ses
      ensures Recorded(old(ses.calls), old(lcs), Replay(v))
      ensures X(Replay(v)) == v[0].x == xIdx - 1 && Y(Replay(v)) == v[0].y == yIdx - 1
    {
      hide IsPath, Spell, Ses.Valid, X, Y, MovesTo, Replay, Commons;
      ghost var calls0, lcs0, moves := ses.calls, lcs, [];
      NoMoves(A, B, swapped);
      assert calls0 + [] == calls0 && lcs0 + [] == lcs0 && v[|v|..] == [];
      var pxIdx, pyIdx;
      xIdx, yIdx, pxIdx, pyIdx := 1, 1, 0, 0;
      for i := |v| downto 0
        invariant Recorded(calls0, lcs0, moves)
        invariant moves == Replay(v[i..])
        invariant xIdx == pxIdx + 1 && yIdx == pyIdx + 1 && pxIdx == X(moves) && pyIdx == Y(moves)
        invariant if i == |v| then pxIdx == pyIdx == 0 else pxIdx == v[i].x && pyIdx == v[i].y
      {
        WalkableSuffix(A, B, v, i);
        ReplaySuffix(v, i);
        while pxIdx < v[i].x || pyIdx < v[i].y
          invariant Recorded(calls0, lcs0, moves)
          invariant Replay(v[i..]) == moves + MovesTo(pxIdx, pyIdx, v[i])
          invariant xIdx == pxIdx + 1 && yIdx == pyIdx + 1 && pxIdx == X(moves) && pyIdx == Y(moves)
          decreases Max(0, v[i].x - pxIdx) + Max(0, v[i].y - pyIdx)
        {
          if v[i].y - v[i].x > pyIdx - pxIdx {
            NextMove(A, B, moves, Ins, pxIdx, pyIdx, pxIdx, pyIdx + 1, v[i]);
            RecordMove(Ins, xIdx, yIdx, calls0, lcs0, moves);
            moves := moves + [Ins];
            yIdx, pyIdx := yIdx + 1, pyIdx + 1;
          } else if v[i].y - v[i].x < pyIdx - pxIdx {
            NextMove(A, B, moves, Del, pxIdx, pyIdx, pxIdx + 1, pyIdx, v[i]);
            RecordMove(Del, xIdx, yIdx, calls0, lcs0, moves);
            moves := moves + [Del];
            xIdx, pxIdx := xIdx + 1, pxIdx + 1;
          } else {
            NextMove(A, B, moves, Com, pxIdx, pyIdx, pxIdx + 1, pyIdx + 1, v[i]);
            RecordMove(Com, xIdx, yIdx, calls0, lcs0, moves);
            moves := moves + [Com];
            xIdx, yIdx, pxIdx, pyIdx := xIdx + 1, yIdx + 1, pxIdx + 1, pyIdx + 1;
          }
        }
        ArrivedThere(moves, pxIdx, pyIdx, v[i]);
      }
      assert v[0..] == v;
    }

    /** The trivial mode: everything left over is deleted or inserted as it stands. */
    method RecordLeftovers(xIdx: int, yIdx: int)
      requires Sized() && ses.Valid() && 0 < xIdx <= M && 0 < yIdx <= N
      modifies `editDistance, ses
      ensures ses.Valid() && ses.calls == old(ses.calls) + Leftovers(A, B, xIdx - 1, yIdx - 1, swapped)
      ensures editDistance == old(editDistance) + (M - xIdx + 1) + (N - yIdx + 1)
    {
      hide Ses.Valid, Leftover;
      assert A[xIdx - 1..M] == A[xIdx - 1..] && B[yIdx - 1..N] == B[yIdx - 1..];
      if !swapped {
        RecordOddSequence(xIdx, M, A, xIdx - 1, Delete);
        RecordOddSequence(yIdx, N, B, yIdx - 1, Add);
      } else {
        RecordOddSequence(xIdx, M, A, xIdx - 1, Add);
        RecordOddSequence(yIdx, N, B, yIdx - 1, Delete);
      }
    }

    /** Nothing found yet in the tables; they fit the sequences held. */
    ghost predicate TablesFresh()
      reads `A, `B, `M, `N, `delta, `offset, `fp, `path, fp
    {
      && Sized() && fp != null && fp.Length == M + N + 3 <= |path|
      && (forall i :: 0 <= i < fp.Length ==> fp[i] == -1)
      && (forall i :: 0 <= i < |path| ==> path[i] == -1)
    }

    /** Go on with the suffixes that the cut round left over, on fresh tables. */
    method Restart(xIdx: int, yIdx: int)
      requires Sized() && 0 < xIdx <= M + 1 && 0 < yIdx <= N + 1 && M - xIdx == N - yIdx && |path| >= M + N + 3
      modifies `A, `B, `M, `N, `delta, `offset, `fp, `path
      ensures A == old(A)[xIdx - 1..] && B == old(B)[yIdx - 1..] && Sized() && TablesFresh() && fresh(fp)
    {
      A, B := A[xIdx - 1..], B[yIdx - 1..];
      M, N := |A|, |B|;
      delta, offset := N - M, M + 1;
      fp := new int[M + N + 3](_ => -1);
      path := seq(|path|, _ => -1);
    }

    /** Replay the recorded points, then deal with what they leave over: nothing, the
        trivial mode, or a restart on the remaining suffixes. */
    method RecordSequence(v: seq<Point>) returns (done: bool)
      requires v != [] && Walkable(A, B, v) && Sized() && ses.Valid() && |path| >= M + N + 3
      requires M - v[0].x == N - v[0].y && 0 <= v[0].x
      modifies `A, `B, `M, `N, `delta, `offset, `fp, `path, `lcs, `editDistance, ses
      ensures ses.Valid() && Sized() && v[0].x <= old(M) && v[0].y <= old(N)
      ensures done == (v[0].y == old(N) || trivial)
      ensures 0 <= v[0].x && 0 <= v[0].y && IsPath(old(A), old(B), Replay(v))
      ensures var here := Spell(old(A), old(B), Replay(v), swapped);
        && lcs == old(lcs) + Commons(here)
        && ses.calls == old(ses.calls) + here
                        + (if v[0].y == old(N) || !trivial then []
                          else Leftovers(old(A), old(B), v[0].x, v[0].y, swapped))
      ensures editDistance == old(editDistance)
                              + if v[0].y == old(N) || !trivial then 0 else (old(M) - v[0].x) + (old(N) - v[0].y)
      ensures if done then A == old(A) && B == old(B)
              else A == old(A)[v[0].x..] && B == old(B)[v[0].y..] && TablesFresh() && fresh(fp)
    {
      hide IsPath, Ses.Valid, X, Y, Replay, RecordOf, Leftovers, Spell, Commons, TablesFresh, Walkable;
      ghost var calls0, lcs0 := ses.calls, lcs;
      var xIdx, yIdx := ReplayPoints(v);
      RecordMeans(A, B, swapped, Replay(v), calls0, lcs0, ses.calls, lcs);
      PathInGrid(A, B, Replay(v));
      if xIdx > M && yIdx > N {
        return true;
      }
      if trivial {
        RecordLeftovers(xIdx, yIdx);
        return true;
      }
      Restart(xIdx, yIdx);
      return false;
    }

    /** Follow the back pointers of the corner diagonal, replay them, and prepare the
        next round when the cap has cut this one short. */
    method RecordRound(ghost p: nat, n: int) returns (done: bool)
      requires Sized() && fp != null && TablesHold(p + 1, 0, M + N + 3) && !editDistanceOnly && cap >= 2
      requires p == StopLevel(A, B, cap, 0)
      requires 0 <= delta + offset < |path| && n == path[delta + offset]
      requires ses.Valid() && lcs == Commons(ses.calls) && editDistance == EditCount(ses.calls) + delta + 2 * p
      modifies `A, `B, `M, `N, `delta, `offset, `fp, `path, `pathCordinates, `lcs, `editDistance, ses
      ensures ses.Valid() && lcs == Commons(ses.calls) && editDistance == EditCount(ses.calls)
      ensures Sized()
      ensures ses.calls + (if done then [] else ComposeCalls(A, B, swapped, trivial, cap))
           == old(ses.calls) + ComposeCalls(old(A), old(B), swapped, trivial, cap)
      ensures !done ==> TablesFresh() && fp != null && fresh(fp) && pathCordinates == [] && M + N < old(M + N)
    {
      hide Ses.Valid, TablesHold, MinDel, Walkable, IsPath, X, Y, Spell, Leftovers,
        ComposeCalls, StopLevel, Commons, EditCount, Replay,
           RoundMoves, TablesFresh, Trail, TrailOf, Linked;
      ghost var a, b, calls0 := A, B, ses.calls;
      CornerTrail(p);
      var epc := CollectPoints(n);
      RoundTrail(A, B, cap);
      ComposeUnfold(A, B, swapped, trivial, cap);
      ghost var moves := RoundMoves(A, B, cap);
      done := RecordSequence(epc);
      assert !done ==> A == a[X(moves)..] && B == b[Y(moves)..];
      RoundCounts(a, b, swapped, trivial, cap, calls0, ses.calls);
      if !done {
        pathCordinates := [];
      }
    }

    /** The points behind coordinate `n`, latest first. */
    method CollectPoints(n: int) returns (epc: seq<Point>)
      requires Linked(pathCordinates) && -1 <= n < |pathCordinates|
      ensures epc == TrailOf(pathCordinates, n)
    {
      var r := n;
      epc := [];
      while r != -1
        invariant -1 <= r < |pathCordinates|
        invariant epc + TrailOf(pathCordinates, r) == TrailOf(pathCordinates, n)
        decreases r
      {
        AppendAssoc(epc, [Point(pathCordinates[r].x, pathCordinates[r].y)],
                    TrailOf(pathCordinates, pathCordinates[r].k));
        epc := epc + [Point(pathCordinates[r].x, pathCordinates[r].y)];
        r := pathCordinates[r].k;
      }
    }

    lemma CornerTrail(p: nat)
      requires Sized() && fp != null && TablesHold(p + 1, 0, M + N + 3) && !editDistanceOnly
      requires p <= MinDel(A, B, M, N)
      ensures 0 <= delta + offset < |path| && M + N + 3 <= |path|
      ensures Linked(pathCordinates) && -1 <= path[delta + offset] < |pathCordinates|
      ensures TrailOf(pathCordinates, path[delta + offset]) == Trail(A, B, p, delta)
      ensures Trail(A, B, p, delta) != []
      ensures Trail(A, B, p, delta)[0] == Point(Furthest(A, B, p, delta) - delta, Furthest(A, B, p, delta))
    {
      hide Trail, Furthest, TrailOf, MinDel, Linked;
      var i := delta + offset;
      assert Cell(A, B, fp[..][i], path[i], pathCordinates, LevelAt(p + 1, 0, M + N + 3, i),
        i - |A| - 1, !editDistanceOnly);
      TrailUnfold(A, B, p, delta);
    }

    method AllocateTables()
      requires Sized()
      modifies `fp, `path
      ensures TablesFresh() && fp != null && fresh(fp)
    {
      fp := new int[M + N + 3](_ => -1);
      path := seq(M + N + 3, _ => -1);
    }

    /** Compare the two sequences: distance, common subsequence and edit script. */
    method Compose()
      requires Fresh()
      modifies `A, `B, `M, `N, `delta, `offset, `fp, `path, `pathCordinates, `lcs, `editDistance, ses
      ensures ses.Valid()
      ensures editDistanceOnly ==> ses.calls == [] && editDistance == Distance(before, after)
      ensures !editDistanceOnly ==> ses.calls == DiffCalls(before, after, trivial, cap)
      ensures !editDistanceOnly ==> lcs == Commons(ses.calls) && editDistance == EditCount(ses.calls)
    {
      hide Ses.Valid, TablesHold, MinDel, ComposeCalls, StopLevel, Furthest, Commons, EditCount, DiffCalls, Distance,
           TablesFresh;
      NoCalls<T>();
      FreshMeans();
      AllocateTables();
      var done := false;
      while !done
        invariant Sized() && ses.Valid() && lcs == Commons(ses.calls)
        invariant !done ==> TablesFresh() && fp != null && fresh(fp) && pathCordinates == []
        invariant !done || !editDistanceOnly ==> editDistance == EditCount(ses.calls)
        invariant ses.calls + (if done && !editDistanceOnly then [] else ComposeCalls(A, B, swapped, trivial, cap))
               == DiffCalls(before, after, trivial, cap)
        invariant editDistanceOnly ==> ses.calls == [] && Distance(before, after) == delta + 2 * MinDel(A, B, M, N)
        invariant editDistanceOnly && done ==> editDistance == Distance(before, after)
        decreases !done, M + N
      {
        done := ComposeRound();
      }
      fp := null;
    }

    /** One round: search, then record what was found. */
    method ComposeRound() returns (done: bool)
      requires Sized() && TablesFresh() && pathCordinates == [] && cap >= 2
      requires ses.Valid() && lcs == Commons(ses.calls) && editDistance == EditCount(ses.calls)
      modifies `A, `B, `M, `N, `delta, `offset, `fp, `path, `pathCordinates, `lcs, `editDistance, fp, ses
      ensures Sized() && ses.Valid() && lcs == Commons(ses.calls)
      ensures !done ==> TablesFresh() && fp != null && fresh(fp) && pathCordinates == [] && M + N < old(M + N)
      ensures editDistanceOnly ==> done && A == old(A) && B == old(B) && ses.calls == old(ses.calls)
      ensures editDistanceOnly ==> editDistance == old(editDistance) + delta + 2 * MinDel(A, B, M, N)
      ensures !editDistanceOnly ==> editDistance == EditCount(ses.calls)
      ensures !editDistanceOnly ==>
          ses.calls + (if done then [] else ComposeCalls(A, B, swapped, trivial, cap))
          == old(ses.calls) + ComposeCalls(old(A), old(B), swapped, trivial, cap)
    {
      hide Ses.Valid, TablesHold, MinDel, ComposeCalls, StopLevel, Furthest, Commons, EditCount, TablesFresh;
      FreshHolds();
      var p := SearchRound();
      editDistance := editDistance + delta + 2 * p;
      HoldsShape(p + 1, 0, M + N + 3);
      var r := path[delta + offset];
      if editDistanceOnly {
        return true;
      }
      done := RecordRound(p, r);
    }

    lemma FreshMeans()
      requires Fresh()
      ensures ComposeCalls(A, B, swapped, trivial, cap) == DiffCalls(before, after, trivial, cap)
      ensures Distance(before, after) == delta + 2 * MinDel(A, B, M, N)
    {
    }

    lemma FreshHolds()
      requires TablesFresh() && pathCordinates == []
      ensures fp != null && TablesHold(0, 0, M + N + 3)
    {
      FreshTables(A, B, fp[..], path, pathCordinates, !editDistanceOnly);
    }

    /** Apply the edit script. Common entries keep the element of `s`, so the script is
        only read for its insertions and for where it deletes. */
    method Patch(s: seq<T>) returns (r: seq<T>)
      requires |Before(ses.sequence)| <= |s|
      ensures |r| == |s| + Adds(ses.sequence) - Deletes(ses.sequence)
      ensures Before(ses.sequence) <= s ==> r == After(ses.sequence) + s[|Before(ses.sequence)|..]
    {
      hide Keep;
      var script := ses.sequence;
      var seqLst, lst := [], s;
      assert script[..0] == [];
      NoCalls<T>();
      for i := 0 to |script|
        invariant |Before(script[..i])| <= |Before(script)| && lst == s[|Before(script[..i])|..]
        invariant |seqLst| + |lst| == |s| + Adds(script[..i]) - Deletes(script[..i])
        invariant Before(script) <= s ==> seqLst == After(script[..i])
      {
        PatchStep(script, i);
        match script[i].kind {
          case Add => seqLst := seqLst + [script[i].elem];
          case Delete => lst := lst[1..];
          case Common => seqLst, lst := seqLst + [lst[0]], lst[1..];
        }
      }
      assert script[..|script|] == script;
      r := seqLst + lst;
    }

    /** Turn the edit script into unified hunks. */
    method ComposeUnifiedHunks() returns (ghost segs: seq<Segment>)
      requires uniHunks == []
      modifies `uniHunks
      ensures Describes(uniHunks, segs, ses.sequence, Indexed(ses.sequence))
      ensures Cuts(uniHunks, segs, ses.sequence)
    {
      uniHunks, segs := HunkComposer.Compose(ses.sequence, swapped);
    }

    /** Patch with the unified hunks, whose start lines are rewritten on the way. */
    method UniPatch(s: seq<T>, ghost segs: seq<Segment>, ghost script: seq<SesElem<T>>) returns (r: seq<T>)
      requires Describes(uniHunks, segs, script, true) && |Before(script)| <= |s|
      modifies `uniHunks
      ensures |r| == |s| + |After(script)| - |Before(script)|
      ensures Before(script) <= s ==> r == After(script) + s[|Before(script)|..]
      ensures |uniHunks| == |old(uniHunks)|
      ensures forall j :: 0 <= j < |uniHunks| ==> uniHunks[j] == old(uniHunks)[j].(a := old(uniHunks)[j].c)
    {
      uniHunks, r := HunkComposer.Patch(uniHunks, s, segs, script);
    }
  }

  /** Comparing and then patching turns the one sequence into the other: in every mode,
      swapped or not, and however often the cap forces a restart. */
  method ComposeThenPatch<T(==)>(a: seq<T>, b: seq<T>, deletesFirst: bool, trivial: bool, cap: nat) returns (r: seq<T>)
    requires cap >= 2
    ensures r == b
  {
    hide Ses.Valid, Diff.Fresh, DiffCalls, Describes, Indexed, Keep, Distance, Uncut;
    var d := new Diff(a, b, deletesFirst, cap);
    if trivial {
      d.OnUnserious();
    }
    d.Compose();
    StoredMeansCalled(d.ses);
    DiffTransforms(a, b, d.trivial, cap);
    r := d.Patch(a);
  }

  /** The second encoding of the same change: hunks made from the script of one round,
      applied to the old sequence, give the new one. */
  method ComposeThenUniPatch<T(==)>(a: seq<T>, b: seq<T>, deletesFirst: bool, trivial: bool, cap: nat)
    returns (r: seq<T>)
    requires cap >= 2 && (trivial || Uncut(a, b, cap))
    ensures r == b
  {
    hide Ses.Valid, Diff.Fresh, DiffCalls, Describes, Indexed, Keep, Distance, Uncut;
    var d := new Diff(a, b, deletesFirst, cap);
    if trivial {
      d.OnUnserious();
    }
    d.Compose();
    StoredMeansCalled(d.ses);
    DiffTransforms(a, b, d.trivial, cap);
    DiffIndexed(a, b, d.trivial, cap);
    StoredIndexed(d.ses);
    ghost var segs := d.ComposeUnifiedHunks();
    r := d.UniPatch(a, segs, d.ses.sequence);
  }

  lemma StoredIndexed<T>(ses: Ses<T>)
    requires ses.Valid() && Indexed(ses.calls)
    ensures Indexed(ses.sequence)
  {
    if ses.deletesFirst {
      MovingKeepsIndices(ses.calls);
    }
  }

  /** The three results of one comparison agree with each other in every mode, and they
      are optimal when the cap is large enough for no round to be cut. */
  method ComposeResults<T(==)>(a: seq<T>, b: seq<T>, deletesFirst: bool, trivial: bool, cap: nat)
    returns (editDistance: int, lcs: seq<T>, script: seq<SesElem<T>>)
    requires cap >= 2
    ensures Transforms(script, a, b) && editDistance == EditCount(script) && lcs == Commons(script)
    ensures deletesFirst ==> DeletesBeforeAdds(script)
    ensures (|a| + 1) * (|b| + 1) <= cap ==>
        && editDistance == Distance(a, b)
        && (forall s :: Transforms(s, a, b) ==> EditCount(s) >= editDistance)
        && (forall c :: IsSubsequence(c, a) && IsSubsequence(c, b) ==> |c| <= |lcs|)
  {
    hide Ses.Valid, Diff.Fresh, DiffCalls, Describes, Indexed, Keep, Distance, Uncut;
    var d := new Diff(a, b, deletesFirst, cap);
    if trivial {
      d.OnUnserious();
    }
    d.Compose();
    editDistance, lcs, script := d.editDistance, d.lcs, d.ses.sequence;
    StoredMeansCalled(d.ses);
    DiffTransforms(a, b, d.trivial, cap);
    if (|a| + 1) * (|b| + 1) <= cap {
      LargeCapIsUncut(a, b, cap);
      DiffIsShortest(a, b, d.trivial, cap);
    }
  }

  lemma TablesShape<T>(a: seq<T>, b: seq<T>, fp: seq<int>, path: seq<int>,
      pc: seq<P>, p: int, lo: int, hi: int, withPath: bool)
    requires Tables(a, b, fp, path, pc, p, lo, hi, withPath)
    ensures |a| <= |b| && |fp| == |a| + |b| + 3 <= |path| && Linked(pc)
  {
  }

  lemma LeftoverSnoc<T>(s: seq<T>, at: nat, it: nat, idx: int, kind: EditKind)
    requires at <= it < |s|
    ensures Leftover(s[at..it + 1], idx, kind)
         == Leftover(s[at..it], idx, kind) + [SesElem(s[it], idx + it - at, 0, kind)]
  {
  }

  lemma AppendAssoc<E>(a: seq<E>, b: seq<E>, c: seq<E>)
    ensures (a + b) + c == a + (b + c)
  {
  }

  /** `calls` and `lcs` extend `calls0` and `lcs0` by what the path `moves` spells out. */
  ghost predicate RecordOf<T>(a: seq<T>, b: seq<T>, swapped: bool, moves: seq<Move>,
                              calls0: seq<SesElem<T>>, lcs0: seq<T>, calls: seq<SesElem<T>>, lcs: seq<T>)
  {
    && IsPath(a, b, moves)
    && calls == calls0 + Spell(a, b, moves, swapped)
    && lcs == lcs0 + Commons(Spell(a, b, moves, swapped))
  }

  lemma RecordSnoc<T>(a: seq<T>, b: seq<T>, swapped: bool, moves: seq<Move>,
                      calls0: seq<SesElem<T>>, lcs0: seq<T>, calls: seq<SesElem<T>>, lcs: seq<T>, m: Move)
    requires RecordOf(a, b, swapped, moves, calls0, lcs0, calls, lcs) && IsPath(a, b, moves + [m])
    ensures m != Ins ==> X(moves) < |a|
    ensures m != Del ==> Y(moves) < |b|
    ensures var e := NextEntry(a, b, moves, m, swapped);
      RecordOf(a, b, swapped, moves + [m], calls0, lcs0, calls + [e], if m == Com then lcs + [e.elem] else lcs)
  {
    hide IsPath, X, Y, Spell, Commons, NextEntry;
    SpellSnoc(a, b, moves, m, swapped);
    var s, e := Spell(a, b, moves, swapped), NextEntry(a, b, moves, m, swapped);
    CommonsSnoc(s, e);
    AppendAssoc(calls0, s, [e]);
    AppendAssoc(lcs0, Commons(s), [e.elem]);
  }

  lemma RecordMeans<T>(a: seq<T>, b: seq<T>, swapped: bool, moves: seq<Move>,
                       calls0: seq<SesElem<T>>, lcs0: seq<T>, calls: seq<SesElem<T>>, lcs: seq<T>)
    requires RecordOf(a, b, swapped, moves, calls0, lcs0, calls, lcs)
    ensures IsPath(a, b, moves)
    ensures calls == calls0 + Spell(a, b, moves, swapped)
    ensures lcs == lcs0 + Commons(Spell(a, b, moves, swapped))
  {
  }

  /** The counters stay true to the script over one round. */
  lemma RoundCounts<T>(a: seq<T>, b: seq<T>, swapped: bool, trivial: bool,
      cap: nat, calls0: seq<SesElem<T>>, calls: seq<SesElem<T>>)
    requires |a| <= |b| && cap >= 2
    requires IsPath(a, b, RoundMoves(a, b, cap)) && Y(RoundMoves(a, b, cap)) <= |b|
    requires X(RoundMoves(a, b, cap)) == Y(RoundMoves(a, b, cap)) - Delta(a, b)
    requires var moves := RoundMoves(a, b, cap);
      calls == calls0 + Spell(a, b, moves, swapped)
               + (if Y(moves) == |b| || !trivial then [] else Leftovers(a, b, X(moves), Y(moves), swapped))
    ensures var moves := RoundMoves(a, b, cap);
      && Commons(calls) == Commons(calls0) + Commons(Spell(a, b, moves, swapped))
      && EditCount(calls) == EditCount(calls0) + Delta(a, b) + 2 * StopLevel(a, b, cap, 0)
                             + (if Y(moves) == |b| || !trivial then 0 else (|a| - X(moves)) + (|b| - Y(moves)))
    ensures var moves := RoundMoves(a, b, cap);
      calls0 + ComposeCalls(a, b, swapped, trivial, cap)
      == calls + if Y(moves) == |b| || trivial then []
                 else ComposeCalls(a[X(moves)..], b[Y(moves)..], swapped, trivial, cap)
  {
    hide RoundMoves, StopLevel, Spell, Leftovers, ComposeCalls, Commons, EditCount, X, Y, IsPath;
    var moves := RoundMoves(a, b, cap);
    var here := Spell(a, b, moves, swapped);
    ComposeUnfold(a, b, swapped, trivial, cap);
    CountConcat(calls0, here);
    if Y(moves) == |b| {
      assert calls == calls0 + here && ComposeCalls(a, b, swapped, trivial, cap) == here;
    } else if trivial {
      var rest := Leftovers(a, b, X(moves), Y(moves), swapped);
      LeftoversCount(a, b, X(moves), Y(moves), swapped);
      CountConcat(calls0 + here, rest);
      AppendAssoc(calls0, here, rest);
    } else {
      assert calls == calls0 + here;
      AppendAssoc(calls0, here, ComposeCalls(a[X(moves)..], b[Y(moves)..], swapped, trivial, cap));
    }
  }

  lemma NoMoves<T>(a: seq<T>, b: seq<T>, swapped: bool)
    ensures IsPath(a, b, []) && X([]) == 0 && Y([]) == 0 && Spell(a, b, [], swapped) == [] && Replay([]) == []
    ensures Commons<T>([]) == []
  {
  }

  lemma {:induction false} WalkableSuffix<T>(a: seq<T>, b: seq<T>, v: seq<Point>, i: nat)
    requires Walkable(a, b, v) && i <= |v|
    ensures Walkable(a, b, v[i..])
    ensures i < |v| ==> var moves := Replay(v[i..]); IsPath(a, b, moves) && X(moves) == v[i].x && Y(moves) == v[i].y
    decreases i
  {
    hide IsPath, X, Y, Replay;
    if i > 0 {
      WalkableSuffix(a, b, v, i - 1);
      assert v[i - 1..][1..] == v[i..];
    } else {
      assert v[0..] == v;
    }
  }

  lemma ReplaySuffix(v: seq<Point>, i: nat)
    requires i < |v|
    ensures var from := if i + 1 < |v| then v[i + 1] else Point(0, 0);
      Replay(v[i..]) == Replay(v[i + 1..]) + MovesTo(from.x, from.y, v[i])
  {
    hide MovesTo;
    assert v[i..][1..] == v[i + 1..];
  }

  /** The next move of the recorder is the next move of the replay. */
  lemma NextMove<T>(a: seq<T>, b: seq<T>, moves: seq<Move>, m: Move, x: int, y: int, x': int, y': int, t: Point)
    requires IsPath(a, b, moves + MovesTo(x, y, t)) && X(moves) == x && Y(moves) == y
    requires x < t.x || y < t.y
    requires m == if t.y - t.x > y - x then Ins else if t.y - t.x < y - x then Del else Com
    requires x' == (if m == Ins then x else x + 1) && y' == (if m == Del then y else y + 1)
    ensures IsPath(a, b, moves + [m]) && X(moves + [m]) == x' && Y(moves + [m]) == y'
    ensures moves + MovesTo(x, y, t) == (moves + [m]) + MovesTo(x', y', t)
  {
    hide IsPath, X, Y;
    assert MovesTo(x, y, t) == [m] + MovesTo(x', y', t);
    MovesToNext(moves, m, x, y, x', y', t);
    PathPrefix(a, b, moves + [m], MovesTo(x', y', t));
    MovesSnoc(moves, m);
  }

  lemma ArrivedThere(moves: seq<Move>, x: int, y: int, t: Point)
    requires x >= t.x && y >= t.y
    ensures moves + MovesTo(x, y, t) == moves
  {
  }
}
