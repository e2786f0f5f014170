/** When the line numbers in a recorded script are the true ones. */
module LineNumbers {
  import opened Scripts
  import opened EditGraph
  import opened Rounds
  import opened Hunks

  lemma {:induction false} SpellIndexed<T>(a: seq<T>, b: seq<T>, moves: seq<Move>, swapped: bool)
    requires IsPath(a, b, moves)
    ensures Indexed(Spell(a, b, moves, swapped))
    decreases |moves|
  {
    hide Keep, X, Y;
    PathInGrid(a, b, moves);
    if moves != [] {
      var moves', m := moves[..|moves| - 1], moves[|moves| - 1];
      SpellIndexed(a, b, moves', swapped);
      SpellSides(a, b, moves', swapped);
      assert moves == moves' + [m];
      SpellSnoc(a, b, moves', m, swapped);
      IndexedSnoc(Spell(a, b, moves', swapped), NextEntry(a, b, moves', m, swapped));
    }
  }

  /** A script recorded in a single round, or completed by the trivial mode, numbers its
      common lines truly. A restart counts from 1 again. */
  lemma DiffIndexed<T>(before: seq<T>, after: seq<T>, trivial: bool, cap: nat)
    requires cap >= 2 && (trivial || Uncut(before, after, cap))
    ensures Indexed(DiffCalls(before, after, trivial, cap))
  {
    hide ComposeCalls;
    if |before| < |after| {
      ComposeIndexed(before, after, false, trivial, cap);
    } else {
      ComposeIndexed(after, before, true, trivial, cap);
    }
  }

  lemma ComposeIndexed<T>(a: seq<T>, b: seq<T>, swapped: bool, trivial: bool, cap: nat)
    requires |a| <= |b| && cap >= 2 && (trivial || Complete(a, b, cap))
    ensures Indexed(ComposeCalls(a, b, swapped, trivial, cap))
  {
    hide ComposeCalls, RoundMoves, Spell, Indexed, X, Y, IsPath;
    var moves := RoundMoves(a, b, cap);
    ComposeUnfold(a, b, swapped, trivial, cap);
    RoundEnds(a, b, cap);
    SpellIndexed(a, b, moves, swapped);
    var here := Spell(a, b, moves, swapped);
    if Y(moves) == |b| {
      assert here + [] == here;
    } else {
      IndexedEdits(here, Leftovers(a, b, X(moves), Y(moves), swapped));
    }
  }
}
