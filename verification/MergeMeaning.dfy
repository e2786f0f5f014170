/** What the gaps of a script hold, and when two scripts clash, in terms of their entries. */
module MergeMeaning {
  import opened Scripts
  import opened Merge

  /** One more entry of a script goes into the gap, or deletes the base element, behind as many
      base elements as the script has consumed so far. */
  lemma {:induction false} InsertedSnoc<T>(s: seq<SesElem<T>>, e: SesElem<T>, g: nat)
    ensures InsertedAt<T>([], g) == []
    ensures InsertedAt(s + [e], g)
         == InsertedAt(s, g) + if e.kind == Add && |Before(s)| == g then [e.elem] else []
    decreases |s|
  {
    hide Keep;
    if s == [] {
      NoCalls<T>();
      assert s + [e] == [e] && [e][1..] == [];
    } else {
      assert (s + [e])[1..] == s[1..] + [e] && (s + [e])[0] == s[0];
      FrontSides(s);
      InsertedSnoc(s[1..], e, if s[0].kind == Add then g else if g > 0 then g - 1 else 0);
    }
  }

  lemma {:induction false} DeletedSnoc<T>(s: seq<SesElem<T>>, e: SesElem<T>, g: nat)
    ensures !DeletedAt<T>([], g)
    ensures DeletedAt(s + [e], g) <==> DeletedAt(s, g) || (e.kind == Delete && |Before(s)| == g)
    decreases |s|
  {
    hide Keep;
    if s == [] {
      NoCalls<T>();
      assert s + [e] == [e] && [e][1..] == [];
    } else {
      assert (s + [e])[1..] == s[1..] + [e] && (s + [e])[0] == s[0];
      FrontSides(s);
      DeletedSnoc(s[1..], e, if s[0].kind == Add then g else if g > 0 then g - 1 else 0);
    }
  }

  /** In some gap neither side's insertion continues the other's, or a side inserts more than
      the other just in front of an element that the other deletes. */
  ghost predicate Clash<T>(s: seq<SesElem<T>>, t: seq<SesElem<T>>, g: nat) {
    var p, q := InsertedAt(s, g), InsertedAt(t, g);
    || (!(p <= q) && !(q <= p))
    || (|p| > |q| && DeletedAt(t, g))
    || (|q| > |p| && DeletedAt(s, g))
  }

  lemma ConflictIff<T>(s: seq<SesElem<T>>, t: seq<SesElem<T>>)
    ensures !Compatible(s, t) <==> exists g: nat :: Clash(s, t, g)
  {
    hide InsertedAt, DeletedAt;
    if !Compatible(s, t) {
      var g: nat :| !CompatibleAt(s, t, g);
      assert Clash(s, t, g);
    }
    forall g: nat
      ensures CompatibleAt(s, t, g) <==> !Clash(s, t, g)
    {
    }
  }

  /** The merge from gap g on: what the sides insert there, the base element if neither deletes
      it, and the merge from the next gap on. */
  lemma MergedIs<T>(s: seq<SesElem<T>>, t: seq<SesElem<T>>, base: seq<T>, g: nat)
    requires Compatible(s, t) && g <= |base|
    ensures var p, q := InsertedAt(s, g), InsertedAt(t, g);
      var inserted := if p <= q then q else p;
      Merged(s, t, base, g)
        == if g == |base| then inserted
           else inserted + (if DeletedAt(s, g) || DeletedAt(t, g) then [] else [base[g]]) + Merged(s, t, base, g + 1)
  {
    hide InsertedAt, DeletedAt;
    assert CompatibleAt(s, t, g);
    var p, q := InsertedAt(s, g), InsertedAt(t, g);
    assert Longer(p, q) + [] == Longer(p, q);
    if p <= q && |p| >= |q| {
      assert p == q;
    }
  }
}
