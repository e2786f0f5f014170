/** The edit graph of two sequences: a reference measure of how many deletions any
    way of turning one into the other needs, and paths through the graph. */
module EditGraph {
  import opened Scripts

  datatype Move = Del | Com | Ins

  function Max(x: int, y: int): int { if x > y then x else y }

  function Min(x: int, y: int): int { if x < y then x else y }

  /** Fewest deletions on a path from (0, 0) to (x, y), by dynamic programming. */
  ghost function MinDel<T>(a: seq<T>, b: seq<T>, x: nat, y: nat): (d: nat)
    requires x <= |a| && y <= |b|
    ensures x - y <= d <= x
  {
    if x == 0 then 0
    else if y == 0 then x
    else
      var edits := Min(MinDel(a, b, x - 1, y) + 1, MinDel(a, b, x, y - 1));
      if a[x - 1] == b[y - 1] then Min(edits, MinDel(a, b, x - 1, y - 1)) else edits
  }

  lemma MinDelSteps<T>(a: seq<T>, b: seq<T>, x: nat, y: nat)
    requires x <= |a| && y <= |b|
    ensures x < |a| ==> MinDel(a, b, x + 1, y) <= MinDel(a, b, x, y) + 1
    ensures y < |b| ==> MinDel(a, b, x, y + 1) <= MinDel(a, b, x, y)
    ensures x < |a| && y < |b| && a[x] == b[y] ==> MinDel(a, b, x + 1, y + 1) <= MinDel(a, b, x, y)
  {
  }

  /** From any point the corner can be reached by deleting the rest of `a` and
      inserting the rest of `b`. */
  lemma {:induction false} MinDelToCorner<T>(a: seq<T>, b: seq<T>, x: nat, y: nat)
    requires x <= |a| && y <= |b|
    ensures MinDel(a, b, |a|, |b|) <= MinDel(a, b, x, y) + |a| - x
    decreases |a| - x + |b| - y
  {
    MinDelSteps(a, b, x, y);
    if x < |a| {
      MinDelToCorner(a, b, x + 1, y);
    } else if y < |b| {
      MinDelToCorner(a, b, x, y + 1);
    }
  }

  // ----- every script is bounded by MinDel

  /** The side of a script that corresponds to the shorter sequence `a`. */
  function ShortSide<T>(s: seq<SesElem<T>>, swapped: bool): seq<T> { if swapped then After(s) else Before(s) }

  function LongSide<T>(s: seq<SesElem<T>>, swapped: bool): seq<T> { if swapped then Before(s) else After(s) }

  lemma SidesSnoc<T>(s: seq<SesElem<T>>, e: SesElem<T>, swapped: bool)
    ensures var shortKind, longKind := if swapped then Add else Delete, if swapped then Delete else Add;
      && ShortSide(s + [e], swapped) == ShortSide(s, swapped) + (if e.kind == longKind then [] else [e.elem])
      && LongSide(s + [e], swapped) == LongSide(s, swapped) + (if e.kind == shortKind then [] else [e.elem])
      && EditCount(s + [e]) == EditCount(s) + (if e.kind == Common then 0 else 1)
      && Commons(s + [e]) == Commons(s) + (if e.kind == Common then [e.elem] else [])
  {
    KeepSnoc(s, e, {Delete, Common});
    KeepSnoc(s, e, {Add, Common});
    KeepSnoc(s, e, {Delete});
    KeepSnoc(s, e, {Add});
    KeepSnoc(s, e, {Common});
    assert e.kind.Delete? || e.kind.Common? || e.kind.Add?;
  }

  lemma TakeLess<T>(a: seq<T>, x: nat, c: seq<T>, e: T)
    requires x <= |a| && a[..x] == c + [e]
    ensures x > 0 && c == a[..x - 1] && e == a[x - 1]
  {
    assert |a[..x]| == |c| + 1;
    assert a[..x][..x - 1] == c && a[..x][x - 1] == e;
  }

  /** Any script between prefixes of `a` and `b`, read in either direction, has at
      least MinDel edits on the side of `a`. */
  lemma {:induction false} ScriptNeedsEdits<T>(s: seq<SesElem<T>>, a: seq<T>, b: seq<T>, x: nat, y: nat, swapped: bool)
    requires x <= |a| && y <= |b|
    requires ShortSide(s, swapped) == a[..x] && LongSide(s, swapped) == b[..y]
    ensures EditCount(s) >= y - x + 2 * MinDel(a, b, x, y)
    decreases |s|
  {
    hide ShortSide, LongSide, EditCount, MinDel;
    if s == [] {
      EmptyScript<T>(swapped);
    } else {
      var s', e := s[..|s| - 1], s[|s| - 1];
      assert s == s' + [e];
      SidesSnoc(s', e, swapped);
      if e.kind == Common {
        TakeLess(a, x, ShortSide(s', swapped), e.elem);
        TakeLess(b, y, LongSide(s', swapped), e.elem);
        ScriptNeedsEdits(s', a, b, x - 1, y - 1, swapped);
        MinDelSteps(a, b, x - 1, y - 1);
      } else if e.kind == if swapped then Add else Delete {
        TakeLess(a, x, ShortSide(s', swapped), e.elem);
        ScriptNeedsEdits(s', a, b, x - 1, y, swapped);
        MinDelSteps(a, b, x - 1, y);
      } else {
        TakeLess(b, y, LongSide(s', swapped), e.elem);
        ScriptNeedsEdits(s', a, b, x, y - 1, swapped);
        MinDelSteps(a, b, x, y - 1);
      }
    }
  }

  lemma EmptyScript<T>(swapped: bool)
    ensures ShortSide<T>([], swapped) == [] && LongSide<T>([], swapped) == []
  {
  }

  /** No script from `a` to `b`, nor one from `b` to `a`, has fewer than
      `|b| - |a| + 2 * MinDel` edits. */
  lemma NoShorterScript<T>(s: seq<SesElem<T>>, a: seq<T>, b: seq<T>)
    requires Transforms(s, a, b) || Transforms(s, b, a)
    ensures EditCount(s) >= |b| - |a| + 2 * MinDel(a, b, |a|, |b|)
  {
    assert a[..|a|] == a && b[..|b|] == b;
    ScriptNeedsEdits(s, a, b, |a|, |b|, !Transforms(s, a, b));
  }

  /** No common subsequence of `a` and `b` is longer than `|a| - MinDel`. */
  lemma {:induction false} CommonSubsequenceBound<T>(c: seq<T>, a: seq<T>, b: seq<T>, x: nat, y: nat)
    requires x <= |a| && y <= |b|
    requires IsSubsequence(c, a[..x]) && IsSubsequence(c, b[..y])
    ensures |c| <= x - MinDel(a, b, x, y)
    decreases x + y
  {
    if c != [] {
      assert a[..x][..x - 1] == a[..x - 1] && b[..y][..y - 1] == b[..y - 1];
      if IsSubsequence(c, a[..x - 1]) {
        CommonSubsequenceBound(c, a, b, x - 1, y);
        MinDelSteps(a, b, x - 1, y);
      } else if IsSubsequence(c, b[..y - 1]) {
        CommonSubsequenceBound(c, a, b, x, y - 1);
        MinDelSteps(a, b, x, y - 1);
      } else {
        CommonSubsequenceBound(c[..|c| - 1], a, b, x - 1, y - 1);
        MinDelSteps(a, b, x - 1, y - 1);
      }
    }
  }

  // ----- paths

  function X(moves: seq<Move>): nat {
    if moves == [] then 0
    else X(moves[..|moves| - 1]) + if moves[|moves| - 1] == Ins then 0 else 1
  }

  function Y(moves: seq<Move>): nat {
    if moves == [] then 0
    else Y(moves[..|moves| - 1]) + if moves[|moves| - 1] == Del then 0 else 1
  }

  function Dels(moves: seq<Move>): nat {
    if moves == [] then 0
    else Dels(moves[..|moves| - 1]) + if moves[|moves| - 1] == Del then 1 else 0
  }

  /** `moves` stays inside the grid and takes a diagonal only over equal elements. */
  ghost predicate IsPath<T>(a: seq<T>, b: seq<T>, moves: seq<Move>) {
    moves == [] ||
    (IsPath(a, b, moves[..|moves| - 1]) && X(moves) <= |a| && Y(moves) <= |b|
     && (moves[|moves| - 1] == Com ==> a[X(moves) - 1] == b[Y(moves) - 1]))
  }

  lemma MovesSnoc(moves: seq<Move>, m: Move)
    ensures X(moves + [m]) == X(moves) + if m == Ins then 0 else 1
    ensures Y(moves + [m]) == Y(moves) + if m == Del then 0 else 1
    ensures Dels(moves + [m]) == Dels(moves) + if m == Del then 1 else 0
  {
    assert (moves + [m])[..|moves|] == moves;
  }

  lemma PathSnoc<T>(a: seq<T>, b: seq<T>, moves: seq<Move>, m: Move)
    ensures IsPath(a, b, moves + [m]) <==>
        IsPath(a, b, moves) && X(moves + [m]) <= |a| && Y(moves + [m]) <= |b|
        && (m == Com ==> a[X(moves)] == b[Y(moves)])
  {
    MovesSnoc(moves, m);
    assert (moves + [m])[..|moves|] == moves;
  }

  lemma {:induction false} PathPrefix<T>(a: seq<T>, b: seq<T>, p: seq<Move>, q: seq<Move>)
    requires IsPath(a, b, p + q)
    ensures IsPath(a, b, p)
    ensures X(p) <= X(p + q) && Y(p) <= Y(p + q)
    decreases |q|
  {
    if q == [] {
      assert p + q == p;
    } else {
      assert p + q == (p + q[..|q| - 1]) + [q[|q| - 1]];
      PathSnoc(a, b, p + q[..|q| - 1], q[|q| - 1]);
      MovesSnoc(p + q[..|q| - 1], q[|q| - 1]);
      PathPrefix(a, b, p, q[..|q| - 1]);
    }
  }

  lemma {:induction false} PathInGrid<T>(a: seq<T>, b: seq<T>, moves: seq<Move>)
    requires IsPath(a, b, moves)
    ensures X(moves) <= |a| && Y(moves) <= |b|
    ensures X(moves) - Y(moves) <= Dels(moves)
    decreases |moves|
  {
    if moves != [] {
      PathInGrid(a, b, moves[..|moves| - 1]);
    }
  }

  /** `moves` is a path from the origin to (x, y) with d deletions. */
  ghost predicate Reaches<T>(a: seq<T>, b: seq<T>, moves: seq<Move>, x: int, y: int, d: int) {
    IsPath(a, b, moves) && X(moves) == x && Y(moves) == y && Dels(moves) == d
  }

  lemma ReachesSnoc<T>(a: seq<T>, b: seq<T>, moves: seq<Move>, x: int, y: int, d: int, m: Move)
    requires Reaches(a, b, moves, x, y, d)
    ensures 0 <= x <= |a| && 0 <= y <= |b|
    ensures m == Ins && y < |b| ==> Reaches(a, b, moves + [Ins], x, y + 1, d)
    ensures m == Del && x < |a| ==> Reaches(a, b, moves + [Del], x + 1, y, d + 1)
    ensures m == Com && x < |a| && y < |b| && a[x] == b[y] ==> Reaches(a, b, moves + [Com], x + 1, y + 1, d)
  {
    PathInGrid(a, b, moves);
    PathSnoc(a, b, moves, m);
    MovesSnoc(moves, m);
  }

  /** The entry one move contributes when it leads to (x, y). With `swapped`, `a` is
      the new and `b` the old sequence. */
  function Entry<T>(a: seq<T>, b: seq<T>, m: Move, x: nat, y: nat, swapped: bool): (e: SesElem<T>)
    requires m != Ins ==> 0 < x <= |a|
    requires m != Del ==> 0 < y <= |b|
    ensures e.kind == Common <==> m == Com
  {
    match m
    case Del => if swapped then SesElem(a[x - 1], 0, x, Add) else SesElem(a[x - 1], x, 0, Delete)
    case Ins => if swapped then SesElem(b[y - 1], y, 0, Delete) else SesElem(b[y - 1], 0, y, Add)
    case Com => if swapped then SesElem(b[y - 1], y, x, Common) else SesElem(a[x - 1], x, y, Common)
  }

  /** The script a path spells out. */
  ghost function Spell<T>(a: seq<T>, b: seq<T>, moves: seq<Move>, swapped: bool): (s: seq<SesElem<T>>)
    requires IsPath(a, b, moves)
  {
    if moves == [] then []
    else
      var m := moves[|moves| - 1];
      Spell(a, b, moves[..|moves| - 1], swapped) + [Entry(a, b, m, X(moves), Y(moves), swapped)]
  }

  /** The entry that move `m` adds behind the path `moves`. */
  ghost function NextEntry<T>(a: seq<T>, b: seq<T>, moves: seq<Move>, m: Move, swapped: bool): (e: SesElem<T>)
    requires m != Ins ==> X(moves) < |a|
    requires m != Del ==> Y(moves) < |b|
    ensures e.kind == Common <==> m == Com
  {
    Entry(a, b, m, if m == Ins then X(moves) else X(moves) + 1, if m == Del then Y(moves) else Y(moves) + 1, swapped)
  }

  lemma SpellSnoc<T>(a: seq<T>, b: seq<T>, moves: seq<Move>, m: Move, swapped: bool)
    requires IsPath(a, b, moves + [m])
    ensures IsPath(a, b, moves)
    ensures m != Ins ==> X(moves) < |a|
    ensures m != Del ==> Y(moves) < |b|
    ensures Spell(a, b, moves + [m], swapped) == Spell(a, b, moves, swapped) + [NextEntry(a, b, moves, m, swapped)]
  {
    PathSnoc(a, b, moves, m);
    MovesSnoc(moves, m);
    assert (moves + [m])[..|moves|] == moves;
  }

  lemma TakeSnoc<T>(a: seq<T>, n: nat)
    requires n < |a|
    ensures a[..n + 1] == a[..n] + [a[n]]
  {
  }

  /** A path that reaches (x, y) spells out a script between the first x elements of
      `a` and the first y of `b`. */
  lemma {:induction false} SpellSides<T>(a: seq<T>, b: seq<T>, moves: seq<Move>, swapped: bool)
    requires IsPath(a, b, moves)
    ensures X(moves) <= |a| && Y(moves) <= |b|
    ensures ShortSide(Spell(a, b, moves, swapped), swapped) == a[..X(moves)]
    ensures LongSide(Spell(a, b, moves, swapped), swapped) == b[..Y(moves)]
    decreases |moves|
  {
    PathInGrid(a, b, moves);
    if moves == [] {
      assert Spell(a, b, moves, swapped) == [];
    } else {
      var moves', m := moves[..|moves| - 1], moves[|moves| - 1];
      SpellSides(a, b, moves', swapped);
      var s, e := Spell(a, b, moves', swapped), Entry(a, b, m, X(moves), Y(moves), swapped);
      assert Spell(a, b, moves, swapped) == s + [e];
      SidesSnoc(s, e, swapped);
      if m != Ins {
        TakeSnoc(a, X(moves'));
      }
      if m != Del {
        TakeSnoc(b, Y(moves'));
      }
    }
  }

  lemma {:induction false} SpellCount<T>(a: seq<T>, b: seq<T>, moves: seq<Move>, swapped: bool)
    requires IsPath(a, b, moves)
    ensures EditCount(Spell(a, b, moves, swapped)) == Y(moves) - X(moves) + 2 * Dels(moves)
    decreases |moves|
  {
    if moves == [] {
      assert Spell(a, b, moves, swapped) == [];
    } else {
      var moves', m := moves[..|moves| - 1], moves[|moves| - 1];
      SpellCount(a, b, moves', swapped);
      SidesSnoc(Spell(a, b, moves', swapped), Entry(a, b, m, X(moves), Y(moves), swapped), swapped);
    }
  }
}
