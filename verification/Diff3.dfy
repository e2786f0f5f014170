/** The three-way merge object. */
module Diff3Library {
  import opened Scripts
  import opened ScriptContainer
  import opened Rounds
  import opened DiffLibrary
  import opened Merge

  class Diff3<T(==)> {
    const A: seq<T>
    const B: seq<T>
    const C: seq<T>
    var S: seq<T>
    const diffBa: Diff<T>
    const diffBc: Diff<T>
    var conflict: bool
    const cap: nat

    ghost const Repr: set<object>

    ghost predicate Separate()
    {
      Repr == {this, diffBa, diffBc, diffBa.ses, diffBc.ses} && diffBa != diffBc && diffBa.ses != diffBc.ses
    }

    ghost predicate Loaded()
      reads diffBa, diffBc
    {
      && Separate() && cap >= 2 && diffBa.cap == diffBc.cap == cap
      && diffBa.before == B && diffBa.after == A && diffBc.before == B && diffBc.after == C
      && !diffBa.ses.deletesFirst && !diffBc.ses.deletesFirst
      && !diffBa.trivial && !diffBc.trivial && !diffBa.editDistanceOnly && !diffBc.editDistanceOnly
    }

    /** Both comparisons have been made. */
    ghost predicate Composed()
      reads Repr, diffBa, diffBc, diffBa.ses, diffBc.ses
    {
      && Loaded()
      && diffBa.ses.sequence == DiffCalls(B, A, false, cap) && diffBc.ses.sequence == DiffCalls(B, C, false, cap)
      && diffBa.editDistance == EditCount(diffBa.ses.sequence) && diffBc.editDistance == EditCount(diffBc.ses.sequence)
    }

    constructor (a: seq<T>, b: seq<T>, c: seq<T>, cap: nat)
      requires cap >= 2
      ensures A == a && B == b && C == c && this.cap == cap && !conflict
      ensures Loaded() && diffBa.Fresh() && diffBc.Fresh() && fresh(Repr)
    {
      A, B, C, S, conflict, this.cap := a, b, c, [], false, cap;
      var ba := new Diff(b, a, false, cap);
      var bc := new Diff(b, c, false, cap);
      diffBa, diffBc := ba, bc;
      Repr := {this, ba, bc, ba.ses, bc.ses};
    }

    method Compose()
      requires Loaded() && diffBa.Fresh() && diffBc.Fresh() && !conflict
      modifies Repr
      ensures Composed() && !conflict
    {
      hide Ses.Valid, Diff.Fresh, DiffCalls, EditCount;
      diffBa.Compose();
      diffBc.Compose();
      StoredAsCalled(diffBa.ses);
      StoredAsCalled(diffBc.ses);
    }

    /** Merge the two changes to B into one, or report a conflict. */
    method Merge() returns (merged: bool)
      requires Composed() && !conflict
      modifies `S, `conflict
      ensures merged == !conflict
      ensures conflict <==> !Compatible(DiffCalls(B, A, false, cap), DiffCalls(B, C, false, cap))
      ensures S == if conflict then B else Merged(DiffCalls(B, A, false, cap), DiffCalls(B, C, false, cap), B, 0)
    {
      hide DiffCalls, Keep, Compatible, Merged;
      ghost var ba, bc := diffBa.ses.sequence, diffBc.ses.sequence;
      DiffTransforms(B, A, false, cap);
      DiffTransforms(B, C, false, cap);
      if diffBa.editDistance == 0 {
        FirstUnchanged(ba, bc, B);
        if diffBc.editDistance == 0 {
          NoEditsMeansSame(bc);
          S := B;
          return true;
        }
        S := C;
        return true;
      } else {
        if diffBc.editDistance == 0 {
          SecondUnchanged(ba, bc, B);
          S := A;
          return true;
        } else {
          S := MergeScripts();
          if conflict {
            return false;
          }
        }
      }
      return true;
    }

    /** Walk both scripts side by side. */
    method MergeScripts() returns (r: seq<T>)
      requires Before(diffBa.ses.sequence) == Before(diffBc.ses.sequence) == B && !conflict
      modifies `conflict
      ensures conflict <==> !Compatible(diffBa.ses.sequence, diffBc.ses.sequence)
      ensures r == if conflict then B else Merged(diffBa.ses.sequence, diffBc.ses.sequence, B, 0)
    {
      hide Keep, Compatible, Merged, MergeState;
      var out: seq<T> := [];
      var ba, bc := diffBa.ses.sequence, diffBc.ses.sequence;
      var i, j := 0, 0;
      ghost var k: nat := 0;
      StateStart(ba, bc, B);
      while i < |ba| || j < |bc|
        invariant 0 <= i <= |ba| && 0 <= j <= |bc| && !conflict
        invariant MergeState(ba, bc, B, i, j, k, out)
        decreases |ba| - i + |bc| - j
      {
        ghost var i0, j0 := i, j;
        while i < |ba| && j < |bc| && ba[i].elem == bc[j].elem && ba[i].kind == Common && bc[j].kind == Common
          invariant i0 <= i <= |ba| && j0 <= j <= |bc| && !conflict
          invariant MergeState(ba, bc, B, i, j, k, out)
          decreases |ba| - i
        {
          StateBase(ba, bc, B, i, j, k, out);
          out := out + [ba[i].elem];
          i, j, k := i + 1, j + 1, k + 1;
        }
        if i == |ba| || j == |bc| {
          break;
        }
        match (ba[i].kind, bc[j].kind) {
          case (Common, Common) =>
            // only reachable with different elements, which a common base rules out
            StateBase(ba, bc, B, i, j, k, out);
            assert false;
          case (Common, Delete) =>
            StateBase(ba, bc, B, i, j, k, out);
            i, j, k := i + 1, j + 1, k + 1;
          case (Common, Add) =>
            StateInsert(ba, bc, B, i, j, k, out, i, j + 1);
            out := out + [bc[j].elem];
            j := j + 1;
          case (Delete, Common) =>
            StateBase(ba, bc, B, i, j, k, out);
            i, j, k := i + 1, j + 1, k + 1;
          case (Delete, Delete) =>
            // the source also handles a mismatch here; both cursors stand at the same
            // base element, so there is none
            StateBase(ba, bc, B, i, j, k, out);
            assert ba[i].elem == bc[j].elem;
            i, j, k := i + 1, j + 1, k + 1;
          case (Delete, Add) =>
            StateClash(ba, bc, B, i, j, k, out);
            conflict := true;
            return B;
          case (Add, Common) =>
            StateInsert(ba, bc, B, i, j, k, out, i + 1, j);
            out := out + [ba[i].elem];
            i := i + 1;
          case (Add, Delete) =>
            StateClash(ba, bc, B, i, j, k, out);
            conflict := true;
            return B;
          case (Add, Add) =>
            if ba[i].elem == bc[j].elem {
              StateInsert(ba, bc, B, i, j, k, out, i + 1, j + 1);
              out := out + [ba[i].elem];
              i, j := i + 1, j + 1;
            } else {
              StateClash(ba, bc, B, i, j, k, out);
              conflict := true;
              return B;
            }
        }
      }
      StateEnd(ba, bc, B, i, j, k, out);
      if i == |ba| {
        out := AddDecentSequence(bc, j, out);
      } else {
        out := AddDecentSequence(ba, i, out);
      }
      r := out;
    }

    /** Append the insertions among the entries from `at` on. */
    method AddDecentSequence(s: seq<SesElem<T>>, at: nat, out: seq<T>) returns (r: seq<T>)
      requires at <= |s|
      ensures r == out + Keep(s[at..], {Add})
      ensures AllKind(s[at..], Add) ==> r == out + After(s[at..])
    {
      hide Keep;
      var it := at;
      r := out;
      KeepNone<T>({Add});
      assert s[at..at] == [];
      while it < |s|
        invariant at <= it <= |s| && r == out + Keep(s[at..it], {Add})
      {
        assert s[at..it + 1] == s[at..it] + [s[it]];
        KeepSnoc(s[at..it], s[it], {Add});
        if s[it].kind == Add {
          r := r + [s[it].elem];
        }
        it := it + 1;
      }
      assert s[at..|s|] == s[at..];
      KeepInRunOfAdds(s[at..]);
    }
  }

  lemma KeepNone<T>(kinds: set<EditKind>)
    ensures Keep<T>([], kinds) == []
  {
  }

  lemma KeepInRunOfAdds<T>(s: seq<SesElem<T>>)
    ensures AllKind(s, Add) ==> Keep(s, {Add}) == After(s)
  {
    if AllKind(s, Add) {
      KeepInRun(s, {Add, Common});
    }
  }

  lemma FirstUnchanged<T>(ba: seq<SesElem<T>>, bc: seq<SesElem<T>>, base: seq<T>)
    requires EditCount(ba) == 0 && Before(bc) == base
    ensures Compatible(ba, bc) && Merged(ba, bc, base, 0) == After(bc)
  {
    NoEditsMeansSame(ba);
    UnchangedIsCompatible(ba, bc);
    MergedUnchanged(ba, bc, base, 0);
    MergedSame(bc);
  }

  lemma SecondUnchanged<T>(ba: seq<SesElem<T>>, bc: seq<SesElem<T>>, base: seq<T>)
    requires EditCount(bc) == 0 && Before(ba) == base
    ensures Compatible(ba, bc) && Merged(ba, bc, base, 0) == After(ba)
  {
    FirstUnchanged(bc, ba, base);
    CompatibleSymmetric(bc, ba);
    MergedSymmetric(bc, ba, base, 0);
  }

  // ----- whole merges

  method ComposeThenMerge<T(==)>(a: seq<T>, b: seq<T>, c: seq<T>, cap: nat) returns (merged: bool, s: seq<T>)
    requires cap >= 2
    ensures merged <==> Compatible(DiffCalls(b, a, false, cap), DiffCalls(b, c, false, cap))
    ensures s == if merged then Merged(DiffCalls(b, a, false, cap), DiffCalls(b, c, false, cap), b, 0) else b
    ensures a == b ==> merged && s == c
    ensures b == c ==> merged && s == a
    ensures a == c ==> merged && s == a
  {
    hide DiffCalls, Compatible, Merged, Diff3.Loaded, Diff3.Composed, Diff.Fresh;
    var d := new Diff3(a, b, c, cap);
    d.Compose();
    merged := d.Merge();
    s := d.S;
    MergeSpecialCases(a, b, c, cap);
  }

  /** Merging the same change from both sides, or a change on one side only. */
  lemma MergeSpecialCases<T>(a: seq<T>, b: seq<T>, c: seq<T>, cap: nat)
    requires cap >= 2
    ensures a == c || a == b || b == c ==>
        Compatible(DiffCalls(b, a, false, cap), DiffCalls(b, c, false, cap))
    ensures var m := Merged(DiffCalls(b, a, false, cap), DiffCalls(b, c, false, cap), b, 0);
      (a == b ==> m == c) && (b == c ==> m == a) && (a == c ==> m == a)
  {
    hide DiffCalls, Compatible, Merged, Keep;
    var s, t := DiffCalls(b, a, false, cap), DiffCalls(b, c, false, cap);
    DiffTransforms(b, a, false, cap);
    DiffTransforms(b, c, false, cap);
    if a == c {
      SameIsCompatible(s);
      MergedSame(s);
    }
    if a == b {
      SameMeansNoEdits(b, cap);
      FirstUnchanged(s, t, b);
    }
    if b == c {
      SameMeansNoEdits(b, cap);
      SecondUnchanged(s, t, b);
    }
  }

  /** Swapping the two sides of a merge changes neither its result nor its conflicts. */
  lemma MergeIsSymmetric<T>(a: seq<T>, b: seq<T>, c: seq<T>, cap: nat)
    requires cap >= 2
    ensures var s, t := DiffCalls(b, a, false, cap), DiffCalls(b, c, false, cap);
      && (Compatible(s, t) <==> Compatible(t, s))
      && (Compatible(s, t) ==> Merged(s, t, b, 0) == Merged(t, s, b, 0))
  {
    hide DiffCalls, Compatible, Merged;
    var s, t := DiffCalls(b, a, false, cap), DiffCalls(b, c, false, cap);
    if Compatible(s, t) {
      CompatibleSymmetric(s, t);
      MergedSymmetric(s, t, b, 0);
    }
    if Compatible(t, s) {
      CompatibleSymmetric(t, s);
    }
  }

  lemma StoredAsCalled<T>(ses: Ses<T>)
    requires ses.Valid() && !ses.deletesFirst
    ensures ses.sequence == ses.calls
  {
  }
}
