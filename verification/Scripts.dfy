/** Edit scripts as plain values: what a script says about the two sequences it
    relates, and the `deletesFirst` ordering of its entries. */
module Scripts {

  datatype EditKind = Delete | Common | Add

  /** One entry of a shortest edit script, with the 1-based line numbers that the
      unified format needs (0 where a side has no line). */
  datatype SesElem<T> = SesElem(elem: T, beforeIdx: int, afterIdx: int, kind: EditKind)

  /** The elements of the entries whose kind is in `kinds`, in order. */
  function Keep<T>(s: seq<SesElem<T>>, kinds: set<EditKind>): (r: seq<T>)
    ensures |r| <= |s|
  {
    if s == [] then []
    else
      var e := s[|s| - 1];
      Keep(s[..|s| - 1], kinds) + if e.kind in kinds then [e.elem] else []
  }

  /** The sequence a script starts from. */
  function Before<T>(s: seq<SesElem<T>>): seq<T> { Keep(s, {Delete, Common}) }

  /** The sequence a script leads to. */
  function After<T>(s: seq<SesElem<T>>): seq<T> { Keep(s, {Add, Common}) }

  function Commons<T>(s: seq<SesElem<T>>): seq<T> { Keep(s, {Common}) }

  function Deletes<T>(s: seq<SesElem<T>>): nat { |Keep(s, {Delete})| }

  function Adds<T>(s: seq<SesElem<T>>): nat { |Keep(s, {Add})| }

  /** The number of insertions and deletions. */
  function EditCount<T>(s: seq<SesElem<T>>): nat { Deletes(s) + Adds(s) }

  ghost predicate Transforms<T>(s: seq<SesElem<T>>, a: seq<T>, b: seq<T>) {
    Before(s) == a && After(s) == b
  }

  ghost predicate AllKind<T>(s: seq<SesElem<T>>, kind: EditKind) {
    forall i :: 0 <= i < |s| ==> s[i].kind == kind
  }

  // ----- projections

  lemma KeepSnoc<T>(s: seq<SesElem<T>>, e: SesElem<T>, kinds: set<EditKind>)
    ensures Keep(s + [e], kinds) == Keep(s, kinds) + if e.kind in kinds then [e.elem] else []
  {
    assert (s + [e])[..|s|] == s;
  }

  lemma CommonsSnoc<T>(s: seq<SesElem<T>>, e: SesElem<T>)
    ensures Commons(s + [e]) == if e.kind == Common then Commons(s) + [e.elem] else Commons(s)
  {
    KeepSnoc(s, e, {Common});
  }

  lemma {:induction false} KeepConcat<T>(s: seq<SesElem<T>>, t: seq<SesElem<T>>, kinds: set<EditKind>)
    ensures Keep(s + t, kinds) == Keep(s, kinds) + Keep(t, kinds)
    decreases |t|
  {
    if t == [] {
      assert s + t == s;
    } else {
      var t', e := t[..|t| - 1], t[|t| - 1];
      assert s + t == (s + t') + [e];
      KeepSnoc(s + t', e, kinds);
      KeepConcat(s, t', kinds);
    }
  }

  /** Entry counts add up: every entry is a deletion, an insertion or common. */
  lemma {:induction false} CountsAddUp<T>(s: seq<SesElem<T>>)
    ensures |Before(s)| == Deletes(s) + |Commons(s)|
    ensures |After(s)| == Adds(s) + |Commons(s)|
    ensures |s| == EditCount(s) + |Commons(s)|
    decreases |s|
  {
    if s != [] {
      var s', e := s[..|s| - 1], s[|s| - 1];
      CountsAddUp(s');
      assert s == s' + [e];
      KeepSnoc(s', e, {Delete});
      KeepSnoc(s', e, {Add});
      KeepSnoc(s', e, {Common});
      assert e.kind.Delete? || e.kind.Common? || e.kind.Add?;
    }
  }

  /** A script whose every entry is common leaves its base alone, and conversely. */
  lemma {:induction false} NoEditsMeansSame<T>(s: seq<SesElem<T>>)
    requires EditCount(s) == 0
    ensures AllKind(s, Common) && Before(s) == After(s) == Commons(s)
    decreases |s|
  {
    if s != [] {
      NoEditsMeansSame(s[..|s| - 1]);
    }
  }

  lemma NoCalls<T>()
    ensures Before<T>([]) == [] && After<T>([]) == [] && Commons<T>([]) == []
    ensures EditCount<T>([]) == Adds<T>([]) == Deletes<T>([]) == 0
  {
  }

  /** One more entry of a script: what it adds to either side. */
  lemma PatchStep<T>(s: seq<SesElem<T>>, i: nat)
    requires i < |s|
    ensures var e, b, b' := s[i], Before(s[..i]), Before(s[..i + 1]);
      && b' == b + (if e.kind == Add then [] else [e.elem])
      && b' <= Before(s)
      && After(s[..i + 1]) == After(s[..i]) + (if e.kind == Delete then [] else [e.elem])
      && Adds(s[..i + 1]) == Adds(s[..i]) + (if e.kind == Add then 1 else 0)
      && Deletes(s[..i + 1]) == Deletes(s[..i]) + (if e.kind == Delete then 1 else 0)
  {
    assert s[..i + 1] == s[..i] + [s[i]];
    assert s == s[..i + 1] + s[i + 1..];
    KeepSnoc(s[..i], s[i], {Delete, Common});
    KeepSnoc(s[..i], s[i], {Add, Common});
    KeepSnoc(s[..i], s[i], {Add});
    KeepSnoc(s[..i], s[i], {Delete});
    KeepConcat(s[..i + 1], s[i + 1..], {Delete, Common});
    assert s[i].kind.Delete? || s[i].kind.Common? || s[i].kind.Add?;
  }

  // ----- common subsequences

  /** `c` can be read off `a` by leaving out elements. */
  ghost predicate IsSubsequence<T>(c: seq<T>, a: seq<T>)
    decreases |a|
  {
    c == [] ||
    (a != [] &&
     (IsSubsequence(c, a[..|a| - 1]) ||
      (c[|c| - 1] == a[|a| - 1] && IsSubsequence(c[..|c| - 1], a[..|a| - 1]))))
  }

  lemma SubsequenceSnoc<T>(c: seq<T>, a: seq<T>, e: T)
    requires IsSubsequence(c, a)
    ensures IsSubsequence(c, a + [e])
    ensures IsSubsequence(c + [e], a + [e])
  {
    assert (a + [e])[..|a|] == a;
    assert (c + [e])[..|c|] == c;
  }

  lemma {:induction false} CommonsAreCommon<T>(s: seq<SesElem<T>>)
    ensures IsSubsequence(Commons(s), Before(s))
    ensures IsSubsequence(Commons(s), After(s))
    decreases |s|
  {
    if s != [] {
      var s', e := s[..|s| - 1], s[|s| - 1];
      CommonsAreCommon(s');
      SubsequenceSnoc(Commons(s'), Before(s'), e.elem);
      SubsequenceSnoc(Commons(s'), After(s'), e.elem);
      match e.kind {
        case Delete => assert After(s) == After(s') && Commons(s) == Commons(s');
        case Common =>
        case Add => assert Before(s) == Before(s') && Commons(s) == Commons(s');
      }
    }
  }

  // ----- deletesFirst

  /** The entries of one kind, in order. */
  function OfKind<T>(s: seq<SesElem<T>>, kind: EditKind): (r: seq<SesElem<T>>)
    ensures AllKind(r, kind)
  {
    if s == [] then []
    else
      OfKind(s[..|s| - 1], kind) + if s[|s| - 1].kind == kind then [s[|s| - 1]] else []
  }

  /** Length of the longest prefix of `s` that ends with a common entry. */
  function LastCommon<T>(s: seq<SesElem<T>>): (n: nat)
    ensures n <= |s|
    ensures n > 0 ==> s[n - 1].kind == Common
    ensures forall i :: n <= i < |s| ==> s[i].kind != Common
  {
    if s == [] then 0
    else if s[|s| - 1].kind == Common then |s|
    else LastCommon(s[..|s| - 1])
  }

  /** A run without common entries, its deletions moved before its insertions. */
  function MovedRun<T>(run: seq<SesElem<T>>): seq<SesElem<T>> {
    OfKind(run, Delete) + OfKind(run, Add)
  }

  /** Inside each run between common entries, deletions moved before insertions. */
  function DeletesMovedFirst<T>(s: seq<SesElem<T>>): (r: seq<SesElem<T>>)
    decreases |s|
  {
    var n := LastCommon(s);
    if n == 0 then MovedRun(s)
    else (DeletesMovedFirst(s[..n - 1]) + [s[n - 1]]) + MovedRun(s[n..])
  }

  ghost predicate DeletesBeforeAdds<T>(s: seq<SesElem<T>>) {
    forall i :: 0 <= i < |s| - 1 ==> !(s[i].kind == Add && s[i + 1].kind == Delete)
  }

  lemma {:induction false} OfKindKeep<T>(s: seq<SesElem<T>>, kind: EditKind, kinds: set<EditKind>)
    ensures Keep(OfKind(s, kind), kinds) == if kind in kinds then Keep(s, {kind}) else []
    decreases |s|
  {
    if s != [] {
      var s', e := s[..|s| - 1], s[|s| - 1];
      OfKindKeep(s', kind, kinds);
      KeepSnoc(OfKind(s', kind), e, kinds);
      assert s == s' + [e];
      KeepSnoc(s', e, {kind});
      assert OfKind(s, kind) == OfKind(s', kind) + if e.kind == kind then [e] else [];
      if e.kind != kind {
        assert OfKind(s, kind) == OfKind(s', kind);
      }
    } else {
      assert OfKind(s, kind) == [];
    }
  }

  /** A run without common entries: keeping deletions (or insertions) keeps one kind. */
  lemma {:induction false} KeepInRun<T>(s: seq<SesElem<T>>, kinds: set<EditKind>)
    requires forall i :: 0 <= i < |s| ==> s[i].kind != Common
    requires !(Delete in kinds && Add in kinds)
    ensures Keep(s, kinds)
         == if Delete in kinds then Keep(s, {Delete}) else if Add in kinds then Keep(s, {Add}) else []
    decreases |s|
  {
    if s != [] {
      KeepInRun(s[..|s| - 1], kinds);
    }
  }

  /** A run without common entries means the same with its deletions moved first. */
  lemma RunKeepsMeaning<T>(run: seq<SesElem<T>>, kinds: set<EditKind>)
    requires forall i :: 0 <= i < |run| ==> run[i].kind != Common
    requires !(Delete in kinds && Add in kinds)
    ensures Keep(MovedRun(run), kinds) == Keep(run, kinds)
  {
    OfKindKeep(run, Delete, kinds);
    OfKindKeep(run, Add, kinds);
    KeepInRun(run, kinds);
    KeepConcat(OfKind(run, Delete), OfKind(run, Add), kinds);
  }

  /** Moving deletions first changes neither what the script reads, nor what it
      writes, nor what it keeps, nor its counts. */
  lemma {:induction false} MovingKeepsMeaning<T>(s: seq<SesElem<T>>, kinds: set<EditKind>)
    requires !(Delete in kinds && Add in kinds)
    ensures Keep(DeletesMovedFirst(s), kinds) == Keep(s, kinds)
    decreases |s|
  {
    var n := LastCommon(s);
    if n == 0 {
      RunKeepsMeaning(s, kinds);
    } else {
      var s', e, run := s[..n - 1], s[n - 1], s[n..];
      var head := DeletesMovedFirst(s') + [e];
      calc {
        Keep(DeletesMovedFirst(s), kinds);
        { KeepConcat(head, MovedRun(run), kinds); }
        Keep(head, kinds) + Keep(MovedRun(run), kinds);
        { KeepSnoc(DeletesMovedFirst(s'), e, kinds); MovingKeepsMeaning(s', kinds); KeepSnoc(s', e, kinds);
          RunKeepsMeaning(run, kinds); }
        Keep(s' + [e], kinds) + Keep(run, kinds);
        { KeepConcat(s' + [e], run, kinds); }
        Keep((s' + [e]) + run, kinds);
        { assert s == (s' + [e]) + run; }
        Keep(s, kinds);
      }
    }
  }

  lemma {:induction false} MovedInOrder<T>(s: seq<SesElem<T>>)
    ensures DeletesBeforeAdds(DeletesMovedFirst(s))
    decreases |s|
  {
    var n := LastCommon(s);
    if n > 0 {
      MovedInOrder(s[..n - 1]);
    }
  }
}
