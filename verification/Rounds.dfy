/** What a whole comparison records: one round of sweeps, cut short or not by the
    coordinate cap, and the restarts on the remaining suffixes. */
module Rounds {
  import opened Scripts
  import opened EditGraph
  import opened Onp

  /** Coordinates recorded when level p of a round is done. */
  function Coordinates(delta: nat, p: nat): nat { (p + 1) * (delta + 1 + p) }

  /** The level at which a round that has finished all levels below p stops. */
  ghost function StopLevel<T>(a: seq<T>, b: seq<T>, cap: nat, p: nat): (r: nat)
    requires |a| <= |b| && p <= MinDel(a, b, |a|, |b|)
    ensures p <= r <= MinDel(a, b, |a|, |b|)
    ensures r == MinDel(a, b, |a|, |b|) || Coordinates(Delta(a, b), r) >= cap
    decreases MinDel(a, b, |a|, |b|) - p
  {
    if p == MinDel(a, b, |a|, |b|) || Coordinates(Delta(a, b), p) >= cap then p
    else StopLevel(a, b, cap, p + 1)
  }

  lemma CoordinatesStep(delta: nat, p: nat)
    ensures Coordinates(delta, p) == delta + 2 * p + 1 + if p == 0 then 0 else Coordinates(delta, p - 1)
  {
  }

  lemma StopStep<T>(a: seq<T>, b: seq<T>, cap: nat, p: nat)
    requires |a| <= |b| && p <= MinDel(a, b, |a|, |b|)
    ensures StopLevel(a, b, cap, p)
         == if p == MinDel(a, b, |a|, |b|) || Coordinates(Delta(a, b), p) >= cap then p else StopLevel(a, b, cap, p + 1)
  {
  }

  /** The first round reaches the corner. */
  ghost predicate Complete<T>(a: seq<T>, b: seq<T>, cap: nat)
    requires |a| <= |b|
  {
    StopLevel(a, b, cap, 0) == MinDel(a, b, |a|, |b|)
  }

  /** The moves one round records. */
  ghost function RoundMoves<T>(a: seq<T>, b: seq<T>, cap: nat): seq<Move>
    requires |a| <= |b|
  {
    Replay(Trail(a, b, StopLevel(a, b, cap, 0), Delta(a, b)))
  }

  /** A round ends on diagonal delta: at the corner, or with equally long non-empty
      remainders and, for a cap of at least 2, never where it began. */
  lemma RoundEnds<T>(a: seq<T>, b: seq<T>, cap: nat)
    requires |a| <= |b|
    ensures var p, moves := StopLevel(a, b, cap, 0), RoundMoves(a, b, cap);
      && Reaches(a, b, moves, Y(moves) - Delta(a, b), Y(moves), p)
      && Y(moves) == Furthest(a, b, p, Delta(a, b)) <= |b| && X(moves) <= |a|
      && (Complete(a, b, cap) <==> Y(moves) == |b|)
      && (cap >= 2 && !Complete(a, b, cap) ==> Y(moves) > 0)
  {
    hide MinDel, Furthest, Trail, Replay;
    var p, moves := StopLevel(a, b, cap, 0), RoundMoves(a, b, cap);
    TrailReplays(a, b, p, Delta(a, b));
    CornerLevel(a, b, p);
    PathInGrid(a, b, moves);
    if cap >= 2 && !Complete(a, b, cap) {
      RoundMoved(a, b, cap);
    }
  }

  lemma RoundMoved<T>(a: seq<T>, b: seq<T>, cap: nat)
    requires |a| <= |b| && cap >= 2 && !Complete(a, b, cap)
    ensures Furthest(a, b, StopLevel(a, b, cap, 0), Delta(a, b)) > 0
  {
    hide Furthest;
    var p := StopLevel(a, b, cap, 0);
    if Delta(a, b) == 0 {
      assert Coordinates(0, 0) == 1;
      assert p >= 1 && |a| >= 1;
      FurthestIsFurthest(a, b, p, 0, 1);
    } else {
      FurthestIsReachable(a, b, p, Delta(a, b));
    }
  }

  /** Every suffix of a trail replays to the point it starts with. */
  ghost predicate Walkable<T>(a: seq<T>, b: seq<T>, trail: seq<Point>) {
    trail == [] ||
    (IsPath(a, b, Replay(trail)) && X(Replay(trail)) == trail[0].x && Y(Replay(trail)) == trail[0].y
     && Walkable(a, b, trail[1..]))
  }

  lemma {:induction false} TrailWalkable<T>(a: seq<T>, b: seq<T>, p: int, k: int)
    requires |a| <= |b| && MinDel(a, b, |a|, |b|) >= p
    ensures Walkable(a, b, Trail(a, b, p, k))
    decreases p, Rank(Delta(a, b), p, k)
  {
    hide MinDel, Furthest, Replay;
    if InSweep(a, b, p, k) {
      var l, r := LeftLevel(Delta(a, b), p, k), RightLevel(Delta(a, b), p, k);
      TrailReplays(a, b, p, k);
      if FromLeft(a, b, p, k) {
        TrailWalkable(a, b, l, k - 1);
        assert Trail(a, b, p, k)[1..] == Trail(a, b, l, k - 1);
      } else {
        TrailWalkable(a, b, r, k + 1);
        assert Trail(a, b, p, k)[1..] == Trail(a, b, r, k + 1);
      }
    }
  }

  /** Entries for a whole leftover, as the trivial mode records it. */
  function Leftover<T>(s: seq<T>, idx: int, kind: EditKind): (r: seq<SesElem<T>>)
    ensures |r| == |s|
  {
    seq(|s|, i requires 0 <= i < |s| => SesElem(s[i], idx + i, 0, kind))
  }

  /** Both leftovers behind (x, y): first that of the shorter sequence. */
  function Leftovers<T>(a: seq<T>, b: seq<T>, x: nat, y: nat, swapped: bool): (r: seq<SesElem<T>>)
    requires x <= |a| && y <= |b|
    ensures |r| == |a| - x + |b| - y
  {
    Leftover(a[x..], x + 1, if swapped then Add else Delete) + Leftover(b[y..], y + 1, if swapped then Delete else Add)
  }

  /** Everything a comparison hands to the script, in order. */
  ghost function ComposeCalls<T>(a: seq<T>, b: seq<T>, swapped: bool, trivial: bool, cap: nat): seq<SesElem<T>>
    requires |a| <= |b| && cap >= 2
    decreases |a| + |b|
  {
    RoundEnds(a, b, cap);
    var moves := RoundMoves(a, b, cap);
    var x, y := X(moves), Y(moves);
    Spell(a, b, moves, swapped) +
    if y == |b| then []
    else if trivial then Leftovers(a, b, x, y, swapped)
    else ComposeCalls(a[x..], b[y..], swapped, trivial, cap)
  }

  lemma {:induction false} LeftoverKeeps<T>(s: seq<T>, idx: int, kind: EditKind, kinds: set<EditKind>)
    ensures Keep(Leftover(s, idx, kind), kinds) == if kind in kinds then s else []
    decreases |s|
  {
    if s != [] {
      var s' := s[..|s| - 1];
      assert Leftover(s, idx, kind)[..|s| - 1] == Leftover(s', idx, kind);
      LeftoverKeeps(s', idx, kind, kinds);
    } else {
      assert Leftover(s, idx, kind) == [];
    }
  }

  /** `s` relates the shorter sequence `a` and the longer one `b`. */
  ghost predicate Links<T>(s: seq<SesElem<T>>, a: seq<T>, b: seq<T>, swapped: bool) {
    ShortSide(s, swapped) == a && LongSide(s, swapped) == b
  }

  lemma LinksConcat<T>(s: seq<SesElem<T>>, t: seq<SesElem<T>>, a: seq<T>, b: seq<T>, x: nat, y: nat, swapped: bool)
    requires x <= |a| && y <= |b|
    requires Links(s, a[..x], b[..y], swapped) && Links(t, a[x..], b[y..], swapped)
    ensures Links(s + t, a, b, swapped)
  {
    KeepConcat(s, t, {Delete, Common});
    KeepConcat(s, t, {Add, Common});
    assert a == a[..x] + a[x..] && b == b[..y] + b[y..];
  }

  lemma LeftoversLink<T>(a: seq<T>, b: seq<T>, x: nat, y: nat, swapped: bool)
    requires x <= |a| && y <= |b|
    ensures Links(Leftovers(a, b, x, y, swapped), a[x..], b[y..], swapped)
  {
    hide Leftover, Keep;
    var k, l := if swapped then Add else Delete, if swapped then Delete else Add;
    var a', b' := a[x..], b[y..];
    LeftoverKeeps(a', x + 1, k, {Delete, Common});
    LeftoverKeeps(a', x + 1, k, {Add, Common});
    LeftoverKeeps(b', y + 1, l, {Delete, Common});
    LeftoverKeeps(b', y + 1, l, {Add, Common});
    assert a'[..|a'|] == a' && a'[|a'|..] == [] && b'[..0] == [] && b'[0..] == b';
    LinksConcat(Leftover(a', x + 1, k), Leftover(b', y + 1, l), a', b', |a'|, 0, swapped);
  }

  lemma {:induction false} CountConcat<T>(s: seq<SesElem<T>>, t: seq<SesElem<T>>)
    ensures EditCount(s + t) == EditCount(s) + EditCount(t)
    ensures Commons(s + t) == Commons(s) + Commons(t)
  {
    KeepConcat(s, t, {Delete});
    KeepConcat(s, t, {Add});
    KeepConcat(s, t, {Common});
  }

  lemma LeftoversCount<T>(a: seq<T>, b: seq<T>, x: nat, y: nat, swapped: bool)
    requires x <= |a| && y <= |b|
    ensures EditCount(Leftovers(a, b, x, y, swapped)) == (|a| - x) + (|b| - y)
    ensures Commons(Leftovers(a, b, x, y, swapped)) == []
  {
    hide Leftover;
    var s := Leftovers(a, b, x, y, swapped);
    var k, l := if swapped then Add else Delete, if swapped then Delete else Add;
    KeepConcat(Leftover(a[x..], x + 1, k), Leftover(b[y..], y + 1, l), {Common});
    LeftoverKeeps(a[x..], x + 1, k, {Common});
    LeftoverKeeps(b[y..], y + 1, l, {Common});
    CountsAddUp(s);
  }

  /** What one round contributes to the whole, and what is left for the others. */
  lemma ComposeUnfold<T>(a: seq<T>, b: seq<T>, swapped: bool, trivial: bool, cap: nat)
    requires |a| <= |b| && cap >= 2
    ensures var moves := RoundMoves(a, b, cap);
      && IsPath(a, b, moves) && X(moves) <= |a| && Y(moves) <= |b|
      && X(moves) == Y(moves) - Delta(a, b)
      && (Y(moves) < |b| ==> Y(moves) > 0)
      && ComposeCalls(a, b, swapped, trivial, cap)
         == (Spell(a, b, moves, swapped) +
             if Y(moves) == |b| then []
             else if trivial then Leftovers(a, b, X(moves), Y(moves), swapped)
             else ComposeCalls(a[X(moves)..], b[Y(moves)..], swapped, trivial, cap))
      && EditCount(Spell(a, b, moves, swapped)) == Delta(a, b) + 2 * StopLevel(a, b, cap, 0)
  {
    hide RoundMoves, StopLevel, Spell, Leftovers;
    RoundEnds(a, b, cap);
    SpellCount(a, b, RoundMoves(a, b, cap), swapped);
  }

  /** The trail a round ends with, and the moves it replays to. */
  lemma RoundTrail<T>(a: seq<T>, b: seq<T>, cap: nat)
    requires |a| <= |b|
    ensures var v, moves := Trail(a, b, StopLevel(a, b, cap, 0), Delta(a, b)), RoundMoves(a, b, cap);
      && v != [] && Walkable(a, b, v) && Replay(v) == moves
      && v[0].x == X(moves) && v[0].y == Y(moves)
  {
    hide StopLevel, MinDel, IsPath, X, Y, Furthest, Replay, Trail;
    TrailWalkable(a, b, StopLevel(a, b, cap, 0), Delta(a, b));
    TrailReplays(a, b, StopLevel(a, b, cap, 0), Delta(a, b));
  }

  /** In every mode the recorded entries lead from the one sequence to the other. */
  lemma {:induction false} ComposeLinks<T>(a: seq<T>, b: seq<T>, swapped: bool, trivial: bool, cap: nat)
    requires |a| <= |b| && cap >= 2
    ensures Links(ComposeCalls(a, b, swapped, trivial, cap), a, b, swapped)
    decreases |a| + |b|
  {
    hide MinDel, RoundMoves, Spell, IsPath, Links, X, Y;
    RoundEnds(a, b, cap);
    var moves := RoundMoves(a, b, cap);
    var here, x, y := Spell(a, b, moves, swapped), X(moves), Y(moves);
    SpellLinks(a, b, moves, swapped);
    if y == |b| {
      assert a[..x] == a && b[..y] == b;
      assert ComposeCalls(a, b, swapped, trivial, cap) == here;
    } else if trivial {
      LeftoversLink(a, b, x, y, swapped);
      LinksConcat(here, Leftovers(a, b, x, y, swapped), a, b, x, y, swapped);
    } else {
      ComposeLinks(a[x..], b[y..], swapped, trivial, cap);
      LinksConcat(here, ComposeCalls(a[x..], b[y..], swapped, trivial, cap), a, b, x, y, swapped);
    }
  }

  lemma SpellLinks<T>(a: seq<T>, b: seq<T>, moves: seq<Move>, swapped: bool)
    requires IsPath(a, b, moves)
    ensures X(moves) <= |a| && Y(moves) <= |b|
    ensures Links(Spell(a, b, moves, swapped), a[..X(moves)], b[..Y(moves)], swapped)
  {
    SpellSides(a, b, moves, swapped);
  }

  // ----- the comparison of any two sequences, the shorter one taken first

  /** The entries recorded for the comparison of `before` with `after`. */
  ghost function DiffCalls<T>(before: seq<T>, after: seq<T>, trivial: bool, cap: nat): seq<SesElem<T>>
    requires cap >= 2
  {
    if |before| < |after| then ComposeCalls(before, after, false, trivial, cap)
    else ComposeCalls(after, before, true, trivial, cap)
  }

  /** The first round of the comparison is not cut short by the cap. */
  ghost predicate Uncut<T>(before: seq<T>, after: seq<T>, cap: nat) {
    if |before| < |after| then Complete(before, after, cap) else Complete(after, before, cap)
  }

  /** Fewest edits between the two sequences, by dynamic programming. */
  ghost function Distance<T>(before: seq<T>, after: seq<T>): nat {
    if |before| < |after| then |after| - |before| + 2 * MinDel(before, after, |before|, |after|)
    else |before| - |after| + 2 * MinDel(after, before, |after|, |before|)
  }

  /** Whatever the mode, the cap and the number of restarts, the recorded script leads
      from `before` to `after`. */
  lemma DiffTransforms<T>(before: seq<T>, after: seq<T>, trivial: bool, cap: nat)
    requires cap >= 2
    ensures Transforms(DiffCalls(before, after, trivial, cap), before, after)
  {
    if |before| < |after| {
      ComposeLinks(before, after, false, trivial, cap);
    } else {
      ComposeLinks(after, before, true, trivial, cap);
    }
  }

  /** `Distance` is a lower bound: no script at all has fewer edits. */
  lemma DistanceIsLeast<T>(before: seq<T>, after: seq<T>, s: seq<SesElem<T>>)
    requires Transforms(s, before, after)
    ensures EditCount(s) >= Distance(before, after)
  {
    if |before| < |after| {
      NoShorterScript(s, before, after);
    } else {
      NoShorterScript(s, after, before);
    }
  }

  lemma CompleteCount<T>(a: seq<T>, b: seq<T>, swapped: bool, trivial: bool, cap: nat)
    requires |a| <= |b| && cap >= 2 && Complete(a, b, cap)
    ensures EditCount(ComposeCalls(a, b, swapped, trivial, cap)) == |b| - |a| + 2 * MinDel(a, b, |a|, |b|)
  {
    hide MinDel, RoundMoves, Spell, IsPath, X, Y;
    RoundEnds(a, b, cap);
    var moves := RoundMoves(a, b, cap);
    SpellCount(a, b, moves, swapped);
    assert ComposeCalls(a, b, swapped, trivial, cap) == Spell(a, b, moves, swapped);
  }

  /** A comparison whose first round is not cut records a shortest script and a longest
      common subsequence. */
  lemma DiffIsShortest<T>(before: seq<T>, after: seq<T>, trivial: bool, cap: nat)
    requires cap >= 2 && Uncut(before, after, cap)
    ensures EditCount(DiffCalls(before, after, trivial, cap)) == Distance(before, after)
    ensures forall s ::
      Transforms(s, before, after) ==> EditCount(s) >= EditCount(DiffCalls(before, after, trivial, cap))
    ensures var lcs := Commons(DiffCalls(before, after, trivial, cap));
      && IsSubsequence(lcs, before) && IsSubsequence(lcs, after)
      && forall c :: IsSubsequence(c, before) && IsSubsequence(c, after) ==> |c| <= |lcs|
  {
    hide MinDel, ComposeCalls, IsSubsequence, Keep;
    var calls := DiffCalls(before, after, trivial, cap);
    DiffTransforms(before, after, trivial, cap);
    CommonsAreCommon(calls);
    CountsAddUp(calls);
    if |before| < |after| {
      CompleteCount(before, after, false, trivial, cap);
    } else {
      CompleteCount(after, before, true, trivial, cap);
    }
    forall s | Transforms(s, before, after) ensures EditCount(s) >= EditCount(calls) {
      DistanceIsLeast(before, after, s);
    }
    forall c | IsSubsequence(c, before) && IsSubsequence(c, after) ensures |c| <= |Commons(calls)| {
      assert before[..|before|] == before && after[..|after|] == after;
      if |before| < |after| {
        CommonSubsequenceBound(c, before, after, |before|, |after|);
      } else {
        CommonSubsequenceBound(c, after, before, |after|, |before|);
      }
    }
  }

  lemma CoordinatesGrow(delta: nat, p: nat, q: nat)
    requires p <= q
    ensures Coordinates(delta, p) <= Coordinates(delta, q)
  {
    assert (p + 1) * (delta + 1 + p) <= (q + 1) * (delta + 1 + p) <= (q + 1) * (delta + 1 + q);
  }

  lemma {:induction false} StopsAtTheEndIff<T>(a: seq<T>, b: seq<T>, cap: nat, p: nat)
    requires |a| <= |b| && p <= MinDel(a, b, |a|, |b|)
    ensures var m := MinDel(a, b, |a|, |b|);
      StopLevel(a, b, cap, p) == m <==> p == m || Coordinates(Delta(a, b), m - 1) < cap
    decreases MinDel(a, b, |a|, |b|) - p
  {
    hide MinDel, StopLevel, Coordinates;
    StopStep(a, b, cap, p);
    var m := MinDel(a, b, |a|, |b|);
    if p < m {
      CoordinatesGrow(Delta(a, b), p, m - 1);
      StopsAtTheEndIff(a, b, cap, p + 1);
    }
  }

  /** The exact condition: the first round reaches the corner if and only if the fewest edits
      of either kind, multiplied, are fewer than the cap. */
  lemma UncutIff<T>(before: seq<T>, after: seq<T>, cap: nat)
    requires cap > 0
    ensures var a, b := if |before| < |after| then before else after, if |before| < |after| then after else before;
      var m := MinDel(a, b, |a|, |b|);
      Uncut(before, after, cap) <==> m * (Delta(a, b) + m) < cap
  {
    hide MinDel, StopLevel;
    var a, b := if |before| < |after| then before else after, if |before| < |after| then after else before;
    StopsAtTheEndIff(a, b, cap, 0);
    var m := MinDel(a, b, |a|, |b|);
    if m > 0 {
      assert Coordinates(Delta(a, b), m - 1) == m * (Delta(a, b) + m);
    }
  }

  /** A caller can tell beforehand: with room for every grid point no round is cut. */
  lemma LargeCapIsUncut<T>(before: seq<T>, after: seq<T>, cap: nat)
    requires (|before| + 1) * (|after| + 1) <= cap
    ensures Uncut(before, after, cap)
  {
    hide MinDel, Uncut;
    var a, b := if |before| < |after| then before else after, if |before| < |after| then after else before;
    var m := MinDel(a, b, |a|, |b|);
    assert (|a| + 1) * (|b| + 1) <= cap;
    assert m * (Delta(a, b) + m) <= |a| * |b| < (|a| + 1) * (|b| + 1);
    UncutIff(before, after, cap);
  }

  /** Comparing a sequence with itself records no edit, whatever the cap. */
  lemma SameMeansNoEdits<T>(a: seq<T>, cap: nat)
    requires cap >= 2
    ensures EditCount(DiffCalls(a, a, false, cap)) == 0
  {
    hide ComposeCalls;
    SameMinDel(a, |a|);
    assert Complete(a, a, cap);
    CompleteCount(a, a, true, false, cap);
  }

  lemma {:induction false} SameMinDel<T>(a: seq<T>, n: nat)
    requires n <= |a|
    ensures MinDel(a, a, n, n) == 0
    decreases n
  {
    if n > 0 {
      SameMinDel(a, n - 1);
      MinDelSteps(a, a, n - 1, n - 1);
    }
  }
}
