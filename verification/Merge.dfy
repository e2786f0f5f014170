/** What a three-way merge means, gap by gap of the common base, and the algebra of that
    meaning. Gap g is the place in front of base element g. */
module Merge {
  import opened Scripts

  /** What a script inserts in gap g of its base. */
  function InsertedAt<T>(s: seq<SesElem<T>>, g: nat): seq<T> {
    if s == [] then []
    else if s[0].kind == Add then (if g == 0 then [s[0].elem] else []) + InsertedAt(s[1..], g)
    else if g == 0 then []
    else InsertedAt(s[1..], g - 1)
  }

  /** Whether a script deletes base element g. */
  predicate DeletedAt<T>(s: seq<SesElem<T>>, g: nat) {
    s != [] &&
    if s[0].kind == Add then DeletedAt(s[1..], g)
    else if g == 0 then s[0].kind == Delete
    else DeletedAt(s[1..], g - 1)
  }

  function Longer<T>(p: seq<T>, q: seq<T>): seq<T> { if |p| >= |q| then p else q }

  /** The merge of two changes to `base` from gap g on: in each gap the longer of the two
      insertions, then the base element unless either side deletes it. */
  function Merged<T>(s: seq<SesElem<T>>, t: seq<SesElem<T>>, base: seq<T>, g: nat): seq<T>
    decreases |base| - g
  {
    Longer(InsertedAt(s, g), InsertedAt(t, g)) +
    if g >= |base| then []
    else (if DeletedAt(s, g) || DeletedAt(t, g) then [] else [base[g]]) + Merged(s, t, base, g + 1)
  }

  /** In gap g one insertion continues the other, and a side that inserts more does so
      only in front of an element that the other side keeps. */
  ghost predicate CompatibleAt<T>(s: seq<SesElem<T>>, t: seq<SesElem<T>>, g: nat) {
    var p, q := InsertedAt(s, g), InsertedAt(t, g);
    && (p <= q || q <= p)
    && (|p| > |q| ==> !DeletedAt(t, g))
    && (|q| > |p| ==> !DeletedAt(s, g))
  }

  ghost predicate Compatible<T>(s: seq<SesElem<T>>, t: seq<SesElem<T>>) {
    forall g: nat :: CompatibleAt(s, t, g)
  }

  // ----- algebra

  lemma CompatibleSymmetric<T>(s: seq<SesElem<T>>, t: seq<SesElem<T>>)
    requires Compatible(s, t)
    ensures Compatible(t, s)
  {
    forall g: nat ensures CompatibleAt(t, s, g) {
      assert CompatibleAt(s, t, g);
    }
  }

  /** The merge does not depend on which change is taken first. */
  lemma {:induction false} MergedSymmetric<T>(s: seq<SesElem<T>>, t: seq<SesElem<T>>, base: seq<T>, g: nat)
    requires Compatible(s, t)
    ensures Merged(s, t, base, g) == Merged(t, s, base, g)
    decreases |base| - g
  {
    hide InsertedAt, DeletedAt;
    assert CompatibleAt(s, t, g);
    if g < |base| {
      MergedSymmetric(s, t, base, g + 1);
    }
  }

  /** Making the same change on both sides merges without conflict. */
  lemma SameIsCompatible<T>(s: seq<SesElem<T>>)
    ensures Compatible(s, s)
  {
    forall g: nat ensures CompatibleAt(s, s, g) {
    }
  }

  lemma {:induction false} NoInsertions<T>(s: seq<SesElem<T>>, g: nat)
    requires AllKind(s, Common)
    ensures InsertedAt(s, g) == [] && !DeletedAt(s, g)
    decreases |s|
  {
    if s != [] && g > 0 {
      NoInsertions(s[1..], g - 1);
    }
  }

  /** An unchanged side merges without conflict. */
  lemma UnchangedIsCompatible<T>(s: seq<SesElem<T>>, t: seq<SesElem<T>>)
    requires AllKind(s, Common)
    ensures Compatible(s, t)
  {
    forall g: nat ensures CompatibleAt(s, t, g) {
      NoInsertions(s, g);
    }
  }

  lemma {:induction false} MergedUnchanged<T>(s: seq<SesElem<T>>, t: seq<SesElem<T>>, base: seq<T>, g: nat)
    requires AllKind(s, Common)
    ensures Merged(s, t, base, g) == Merged(t, t, base, g)
    decreases |base| - g
  {
    hide InsertedAt, DeletedAt;
    NoInsertions(s, g);
    if g < |base| {
      MergedUnchanged(s, t, base, g + 1);
    }
  }

  // ----- one side alone, and taking a script apart from the front

  lemma FrontSides<T>(s: seq<SesElem<T>>)
    requires s != []
    ensures Before(s) == (if s[0].kind == Add then [] else [s[0].elem]) + Before(s[1..])
    ensures After(s) == (if s[0].kind == Delete then [] else [s[0].elem]) + After(s[1..])
  {
    assert s == [s[0]] + s[1..];
    KeepConcat([s[0]], s[1..], {Delete, Common});
    KeepConcat([s[0]], s[1..], {Add, Common});
    assert [s[0]] == [] + [s[0]];
    KeepSnoc([], s[0], {Delete, Common});
    KeepSnoc([], s[0], {Add, Common});
    assert s[0].kind.Delete? || s[0].kind.Common? || s[0].kind.Add?;
  }

  /** Dropping one base element from the front of everything moves all gaps by one. */
  lemma {:induction false} MergedShift<T>(s: seq<SesElem<T>>, t: seq<SesElem<T>>, base: seq<T>, g: nat)
    requires s != [] && t != [] && base != [] && s[0].kind != Add && t[0].kind != Add
    ensures Merged(s, t, base, g + 1) == Merged(s[1..], t[1..], base[1..], g)
    decreases |base| - g
  {
    if g + 1 < |base| {
      MergedShift(s, t, base, g + 1);
    }
  }

  /** Dropping one insertion from the front leaves the later gaps alone. */
  lemma {:induction false} MergedLater<T>(s: seq<SesElem<T>>, s': seq<SesElem<T>>,
      t: seq<SesElem<T>>, t': seq<SesElem<T>>, base: seq<T>, g: nat)
    requires g > 0
    requires s' == s || (s != [] && s[0].kind == Add && s' == s[1..])
    requires t' == t || (t != [] && t[0].kind == Add && t' == t[1..])
    ensures Merged(s, t, base, g) == Merged(s', t', base, g)
    decreases |base| - g
  {
    assert InsertedAt(s, g) == InsertedAt(s', g) && InsertedAt(t, g) == InsertedAt(t', g);
    if g < |base| {
      MergedLater(s, s', t, t', base, g + 1);
    }
  }

  lemma PushFront<T>(e: T, p: seq<T>, rest: seq<T>)
    ensures ([e] + p) + rest == [e] + (p + rest)
  {
  }

  /** The front of `s` is an insertion that `t` makes as well, or that meets a gap in
      which `t` neither inserts nor deletes. */
  ghost predicate FrontInsertion<T>(s: seq<SesElem<T>>, s': seq<SesElem<T>>, t: seq<SesElem<T>>, t': seq<SesElem<T>>) {
    && s != [] && s[0].kind == Add && s' == s[1..]
    && (t != [] ==> t[0].kind != Delete)
    && (if t != [] && t[0].kind == Add then t[0].elem == s[0].elem && t' == t[1..] else t' == t)
  }

  lemma FrontGap<T>(s: seq<SesElem<T>>, s': seq<SesElem<T>>, t: seq<SesElem<T>>, t': seq<SesElem<T>>)
    requires FrontInsertion(s, s', t, t')
    ensures InsertedAt(s, 0) == [s[0].elem] + InsertedAt(s', 0) && DeletedAt(s, 0) == DeletedAt(s', 0)
    ensures DeletedAt(t, 0) == DeletedAt(t', 0)
    ensures t' == t ==> InsertedAt(t, 0) == [] && !DeletedAt(t, 0)
    ensures t' != t ==> InsertedAt(t, 0) == [s[0].elem] + InsertedAt(t', 0)
    ensures forall g: nat :: g > 0 ==> InsertedAt(s, g) == InsertedAt(s', g) && DeletedAt(s, g) == DeletedAt(s', g)
    ensures forall g: nat :: g > 0 ==> InsertedAt(t, g) == InsertedAt(t', g) && DeletedAt(t, g) == DeletedAt(t', g)
  {
  }

  /** Such an insertion comes first in the merge and does not change its compatibility. */
  lemma MergedInsert<T>(s: seq<SesElem<T>>, s': seq<SesElem<T>>, t: seq<SesElem<T>>, t': seq<SesElem<T>>, base: seq<T>)
    requires FrontInsertion(s, s', t, t')
    ensures Merged(s, t, base, 0) == [s[0].elem] + Merged(s', t', base, 0)
    ensures Compatible(s, t) <==> Compatible(s', t')
  {
    hide InsertedAt, DeletedAt;
    FrontGap(s, s', t, t');
    if base != [] {
      MergedLater(s, s', t, t', base, 1);
    }
    var e, p, q := s[0].elem, InsertedAt(s', 0), InsertedAt(t', 0);
    assert Longer(InsertedAt(s, 0), InsertedAt(t, 0)) == [e] + Longer(p, q);
    PushFront(e, Longer(p, q),
              if base == [] then []
              else (if DeletedAt(s, 0) || DeletedAt(t, 0) then [] else [base[0]]) + Merged(s, t, base, 1));
    CompatibleInsert(s, s', t, t');
  }

  /** The same for an insertion by the second script only. */
  lemma MergedInsertSecond<T>(s: seq<SesElem<T>>, t: seq<SesElem<T>>, t': seq<SesElem<T>>, base: seq<T>)
    requires FrontInsertion(t, t', s, s)
    ensures Merged(s, t, base, 0) == [t[0].elem] + Merged(s, t', base, 0)
    ensures Compatible(s, t) <==> Compatible(s, t')
  {
    hide InsertedAt, DeletedAt;
    FrontGap(t, t', s, s);
    if base != [] {
      MergedLater(s, s, t, t', base, 1);
    }
    var e, q := t[0].elem, InsertedAt(t', 0);
    PushFront(e, q,
              if base == [] then []
              else (if DeletedAt(s, 0) || DeletedAt(t, 0) then [] else [base[0]]) + Merged(s, t, base, 1));
    CompatibleInsert(t, t', s, s);
    if Compatible(s, t) {
      CompatibleSymmetric(s, t);
      CompatibleSymmetric(t', s);
    }
    if Compatible(s, t') {
      CompatibleSymmetric(s, t');
      CompatibleSymmetric(t, s);
    }
  }

  lemma CompatibleInsert<T>(s: seq<SesElem<T>>, s': seq<SesElem<T>>, t: seq<SesElem<T>>, t': seq<SesElem<T>>)
    requires FrontInsertion(s, s', t, t')
    ensures Compatible(s, t) <==> Compatible(s', t')
  {
    hide InsertedAt, DeletedAt;
    FrontGap(s, s', t, t');
    PrefixCons(s[0].elem, InsertedAt(s', 0), InsertedAt(t', 0));
    assert CompatibleAt(s, t, 0) <==> CompatibleAt(s', t', 0);
    forall g: nat ensures CompatibleAt(s, t, g) <==> CompatibleAt(s', t', g) {
    }
  }

  lemma PrefixCons<T>(e: T, p: seq<T>, q: seq<T>)
    ensures [e] + p <= [e] + q <==> p <= q
    ensures [e] + q <= [e] + p <==> q <= p
  {
    assert [e] + p <= [e] + q ==> ([e] + q)[1..][..|p|] == ([e] + p)[1..];
    assert [e] + q <= [e] + p ==> ([e] + p)[1..][..|q|] == ([e] + q)[1..];
  }

  /** The merge of a change with itself is the changed sequence. */
  lemma {:induction false} MergedSame<T>(s: seq<SesElem<T>>)
    ensures Merged(s, s, Before(s), 0) == After(s)
    decreases |s|
  {
    hide Keep;
    if s == [] {
      NoCalls<T>();
    } else {
      var s' := s[1..];
      FrontSides(s);
      MergedSame(s');
      if s[0].kind == Add {
        MergedInsert(s, s', s, s', Before(s));
        assert Before(s) == Before(s');
      } else {
        MergedShift(s, s, Before(s), 0);
        assert Before(s)[1..] == Before(s');
      }
    }
  }

  /** A base element that stands in front of both scripts leaves the merge first. */
  lemma MergedBase<T>(s: seq<SesElem<T>>, t: seq<SesElem<T>>, base: seq<T>)
    requires s != [] && t != [] && base != [] && s[0].kind != Add && t[0].kind != Add
    ensures Merged(s, t, base, 0)
         == (if s[0].kind == Delete || t[0].kind == Delete then [] else [base[0]])
           + Merged(s[1..], t[1..], base[1..], 0)
    ensures Compatible(s, t) <==> Compatible(s[1..], t[1..])
  {
    MergedShift(s, t, base, 0);
    forall g: nat ensures CompatibleAt(s, t, g + 1) <==> CompatibleAt(s[1..], t[1..], g) {
    }
    assert CompatibleAt(s, t, 0);
    if Compatible(s, t) {
      forall g: nat ensures CompatibleAt(s[1..], t[1..], g) {
        assert CompatibleAt(s, t, g + 1);
      }
    }
    if Compatible(s[1..], t[1..]) {
      forall g: nat ensures CompatibleAt(s, t, g) {
        if g > 0 {
          assert CompatibleAt(s[1..], t[1..], g - 1);
        }
      }
    }
  }

  /** An insertion that meets a deletion, or a different insertion, is a conflict. */
  lemma ClashIsConflict<T>(s: seq<SesElem<T>>, t: seq<SesElem<T>>)
    requires s != [] && t != [] && s[0].kind == Add
    requires t[0].kind == Delete || (t[0].kind == Add && t[0].elem != s[0].elem)
    ensures !Compatible(s, t)
  {
    assert InsertedAt(s, 0)[0] == s[0].elem;
    if t[0].kind == Add {
      assert InsertedAt(t, 0)[0] == t[0].elem;
    } else {
      assert InsertedAt(t, 0) == [] && DeletedAt(t, 0);
    }
    assert !CompatibleAt(s, t, 0);
  }

  lemma {:induction false} OnlyInsertions<T>(s: seq<SesElem<T>>)
    requires Before(s) == []
    ensures AllKind(s, Add) && InsertedAt(s, 0) == After(s)
    ensures forall g: nat :: !DeletedAt(s, g)
    ensures forall g: nat :: g > 0 ==> InsertedAt(s, g) == []
    decreases |s|
  {
    hide Keep;
    if s != [] {
      FrontSides(s);
      OnlyInsertions(s[1..]);
      forall i | 0 <= i < |s| ensures s[i].kind == Add {
        if i > 0 {
          assert s[i] == s[1..][i - 1];
        }
      }
    } else {
      NoCalls<T>();
    }
  }

  /** Once one script is used up, the other holds insertions only, and they end the merge. */
  lemma MergedTail<T>(s: seq<SesElem<T>>)
    requires Before(s) == []
    ensures Compatible(s, []) && Merged(s, [], [], 0) == After(s) && AllKind(s, Add)
  {
    OnlyInsertions(s);
    forall g: nat ensures CompatibleAt(s, [], g) {
    }
  }

  // ----- the state of the merging loop

  /** Both cursors have passed the same base elements; what is out so far, followed by the
      merge of the rest, is the whole merge. */
  ghost predicate MergeState<T>(ba: seq<SesElem<T>>, bc: seq<SesElem<T>>,
      base: seq<T>, i: nat, j: nat, k: nat, out: seq<T>) {
    && i <= |ba| && j <= |bc| && k <= |base|
    && Before(ba[i..]) == Before(bc[j..]) == base[k..]
    && out + Merged(ba[i..], bc[j..], base[k..], 0) == Merged(ba, bc, base, 0)
    && (Compatible(ba, bc) <==> Compatible(ba[i..], bc[j..]))
  }

  lemma StateStart<T>(ba: seq<SesElem<T>>, bc: seq<SesElem<T>>, base: seq<T>)
    requires Before(ba) == Before(bc) == base
    ensures MergeState(ba, bc, base, 0, 0, 0, [])
  {
    assert ba[0..] == ba && bc[0..] == bc && base[0..] == base;
  }

  lemma OutAssoc<T>(out: seq<T>, e: seq<T>, rest: seq<T>)
    ensures out + (e + rest) == (out + e) + rest
  {
  }

  /** Both scripts are at a base element, and it is the same one. */
  lemma StateBase<T>(ba: seq<SesElem<T>>, bc: seq<SesElem<T>>, base: seq<T>, i: nat, j: nat, k: nat, out: seq<T>)
    requires MergeState(ba, bc, base, i, j, k, out) && i < |ba| && j < |bc|
    requires ba[i].kind != Add && bc[j].kind != Add
    ensures k < |base| && ba[i].elem == bc[j].elem == base[k]
    ensures MergeState(ba, bc, base, i + 1, j + 1, k + 1,
                       if ba[i].kind == Delete || bc[j].kind == Delete then out else out + [base[k]])
  {
    hide Merged, Compatible, Before;
    var s, t := ba[i..], bc[j..];
    FrontSides(s);
    FrontSides(t);
    assert s[1..] == ba[i + 1..] && t[1..] == bc[j + 1..] && base[k..][1..] == base[k + 1..];
    assert base[k..] == [s[0].elem] + Before(s[1..]) == [t[0].elem] + Before(t[1..]);
    assert base[k..][0] == s[0].elem == t[0].elem;
    assert base[k..][1..] == Before(s[1..]) == Before(t[1..]);
    MergedBase(s, t, base[k..]);
    OutAssoc(out, if s[0].kind == Delete || t[0].kind == Delete then [] else [base[k]],
      Merged(s[1..], t[1..], base[k + 1..], 0));
  }

  /** An insertion that goes out: by both scripts, or by one while the other is at a
      common element. */
  lemma StateInsert<T>(ba: seq<SesElem<T>>, bc: seq<SesElem<T>>,
      base: seq<T>, i: nat, j: nat, k: nat, out: seq<T>, i': nat, j': nat)
    requires MergeState(ba, bc, base, i, j, k, out) && i < |ba| && j < |bc|
    requires ba[i].kind == Add || bc[j].kind == Add
    requires ba[i].kind != Delete && bc[j].kind != Delete
    requires ba[i].kind == bc[j].kind ==> ba[i].elem == bc[j].elem
    requires i' == (if ba[i].kind == Add then i + 1 else i) && j' == (if bc[j].kind == Add then j + 1 else j)
    ensures MergeState(ba, bc, base, i', j', k, out + [if ba[i].kind == Add then ba[i].elem else bc[j].elem])
  {
    hide Merged, Compatible, Before;
    var s, t, s', t' := ba[i..], bc[j..], ba[i'..], bc[j'..];
    FrontSides(s);
    FrontSides(t);
    assert s[1..] == ba[i + 1..] && t[1..] == bc[j + 1..];
    assert [] + Before(s') == Before(s') && [] + Before(t') == Before(t');
    if ba[i].kind == Add {
      MergedInsert(s, s', t, t', base[k..]);
      OutAssoc(out, [ba[i].elem], Merged(s', t', base[k..], 0));
    } else {
      MergedInsertSecond(s, t, t', base[k..]);
      OutAssoc(out, [bc[j].elem], Merged(s', t', base[k..], 0));
    }
  }

  /** An insertion meets a deletion or a different insertion. */
  lemma StateClash<T>(ba: seq<SesElem<T>>, bc: seq<SesElem<T>>, base: seq<T>, i: nat, j: nat, k: nat, out: seq<T>)
    requires MergeState(ba, bc, base, i, j, k, out) && i < |ba| && j < |bc|
    requires ba[i].kind == Add || bc[j].kind == Add
    requires if ba[i].kind == bc[j].kind then ba[i].elem != bc[j].elem else ba[i].kind == Delete || bc[j].kind == Delete
    ensures !Compatible(ba, bc)
  {
    if ba[i].kind == Add {
      ClashIsConflict(ba[i..], bc[j..]);
    } else {
      ClashIsConflict(bc[j..], ba[i..]);
      if Compatible(ba[i..], bc[j..]) {
        CompatibleSymmetric(ba[i..], bc[j..]);
      }
    }
  }

  /** One script is used up: the insertions left in the other end the merge. */
  lemma StateEnd<T>(ba: seq<SesElem<T>>, bc: seq<SesElem<T>>, base: seq<T>, i: nat, j: nat, k: nat, out: seq<T>)
    requires MergeState(ba, bc, base, i, j, k, out) && (i == |ba| || j == |bc|)
    ensures var rest := if i == |ba| then bc[j..] else ba[i..];
      AllKind(rest, Add) && out + After(rest) == Merged(ba, bc, base, 0)
    ensures Compatible(ba, bc)
  {
    hide Merged, Compatible, Keep;
    NoCalls<T>();
    if i == |ba| {
      assert ba[i..] == [] && base[k..] == [];
      MergedTail(bc[j..]);
      CompatibleSymmetric(bc[j..], []);
      MergedSymmetric(bc[j..], [], [], 0);
    } else {
      assert bc[j..] == [] && base[k..] == [];
      MergedTail(ba[i..]);
    }
  }
}
