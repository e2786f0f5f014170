/** Unified-format hunks: what it means for hunks to describe a script, the state kept
    while hunks are gathered, and the steps of patching with them. */
module Hunks {
  import opened Scripts
  import opened ScriptContainer

  /** `@@ -a,b +c,d @@` with its lines; `common1` stays empty in practice. */
  datatype UniHunk<T> = UniHunk(a: int, b: int, c: int, d: int, common0: seq<SesElem<T>>, change: seq<SesElem<T>>,
                                common1: seq<SesElem<T>>, incDecCount: int)

  function Lines<T>(h: UniHunk<T>): seq<SesElem<T>> { h.common0 + h.change + h.common1 }

  /** The part of a script that one hunk covers. */
  datatype Segment = Segment(lo: nat, hi: nat)

  /** Every common entry carries its true 1-based line on both sides. */
  ghost predicate Indexed<T>(s: seq<SesElem<T>>) {
    forall i :: 0 <= i < |s| && s[i].kind == Common ==>
      s[i].beforeIdx == |Before(s[..i])| + 1 && s[i].afterIdx == |After(s[..i])| + 1
  }

  /** The hunk holds exactly the entries of its segment, deletions first, has counts that
      fit them, and at most three context lines in front of a first edit. */
  ghost predicate Holds<T>(h: UniHunk<T>, s: seq<SesElem<T>>, g: Segment) {
    && g.lo <= g.hi <= |s|
    && Lines(h) == DeletesMovedFirst(s[g.lo..g.hi])
    && h.b == |Before(s[g.lo..g.hi])| && h.d == |After(s[g.lo..g.hi])| && h.incDecCount == h.d - h.b
    && |h.common0| <= 3 && AllKind(h.common0, Common) && h.change != []
  }

  /** The hunk starts at the true line of both sides. */
  ghost predicate Placed<T>(h: UniHunk<T>, s: seq<SesElem<T>>, g: Segment) {
    g.lo <= |s| && h.a == |Before(s[..g.lo])| + 1 && h.c == |After(s[..g.lo])| + 1
  }

  function EndOf(segs: seq<Segment>): nat { if segs == [] then 0 else segs[|segs| - 1].hi }

  ghost predicate CommonBetween<T>(s: seq<SesElem<T>>, lo: nat, hi: nat) {
    lo <= hi <= |s| && forall i :: lo <= i < hi ==> s[i].kind == Common
  }

  /** The hunks cover the script up to EndOf(segs) in order and without overlap, leaving
      out only common entries. */
  ghost predicate Covers<T>(hunks: seq<UniHunk<T>>, segs: seq<Segment>, s: seq<SesElem<T>>, placed: bool) {
    && |hunks| == |segs|
    && forall j :: 0 <= j < |segs| ==>
        && Holds(hunks[j], s, segs[j])
        && (placed ==> Placed(hunks[j], s, segs[j]))
        && CommonBetween(s, EndOf(segs[..j]), segs[j].lo)
  }

  /** The hunks describe the whole script. */
  ghost predicate Describes<T>(hunks: seq<UniHunk<T>>, segs: seq<Segment>, s: seq<SesElem<T>>, placed: bool) {
    Covers(hunks, segs, s, placed) && CommonBetween(s, EndOf(segs), |s|)
  }

  ghost predicate FiveCommons<T>(s: seq<SesElem<T>>, k: nat) { CommonBetween(s, k, k + 5) }

  /** No five common entries in a row. */
  ghost predicate NoWideGap<T>(s: seq<SesElem<T>>, lo: nat, hi: nat) {
    forall k: nat :: lo <= k && k + 5 <= hi ==> !FiveCommons(s, k)
  }

  /** Entry e is the last edit before `hi`. If the script goes on there, it does so behind
      three common entries and with two more. */
  ghost predicate LastEdit<T>(s: seq<SesElem<T>>, g: Segment, e: nat) {
    && g.lo <= e < g.hi <= |s| && s[e].kind != Common && CommonBetween(s, e + 1, g.hi)
    && (g.hi < |s| ==> g.hi == e + 4 && FiveCommons(s, e + 1))
  }

  /** A segment is cut at five common entries in a row, and nowhere else. */
  ghost predicate CutAtGaps<T>(s: seq<SesElem<T>>, g: Segment) {
    NoWideGap(s, g.lo, g.hi) && exists e: nat :: LastEdit(s, g, e)
  }

  /** In front of its first edit a segment has three common entries, or all there are since
      the segment before. */
  ghost predicate InContext<T>(common0: seq<SesElem<T>>, s: seq<SesElem<T>>, g: Segment, end: nat) {
    var k := g.lo + |common0|;
    && k < g.hi <= |s| && common0 == s[g.lo..k] && s[k].kind != Common
    && |common0| <= 3 && (|common0| < 3 ==> g.lo == end)
  }

  /** Where the segments begin and end. */
  ghost predicate Cuts<T>(hunks: seq<UniHunk<T>>, segs: seq<Segment>, s: seq<SesElem<T>>) {
    |hunks| == |segs| && forall j :: 0 <= j < |segs| ==>
      hunks[j].common1 == [] && InContext(hunks[j].common0, s, segs[j], EndOf(segs[..j])) && CutAtGaps(s, segs[j])
  }

  lemma CutsSnoc<T>(hunks: seq<UniHunk<T>>, segs: seq<Segment>, s: seq<SesElem<T>>, h: UniHunk<T>, g: Segment)
    requires Cuts(hunks, segs, s) && h.common1 == [] && InContext(h.common0, s, g, EndOf(segs)) && CutAtGaps(s, g)
    ensures Cuts(hunks + [h], segs + [g], s)
  {
    hide InContext, CutAtGaps;
    var hunks', segs' := hunks + [h], segs + [g];
    forall j | 0 <= j < |segs'|
      ensures hunks'[j].common1 == [] && InContext(hunks'[j].common0, s, segs'[j], EndOf(segs'[..j]))
      ensures CutAtGaps(s, segs'[j])
    {
      assert segs'[..j] == segs[..j];
      assert segs[..|segs|] == segs;
    }
  }

  // ----- the hunks of a script are determined by it

  lemma SameStart<T>(s: seq<SesElem<T>>, end: nat, c: seq<SesElem<T>>, g: Segment, c': seq<SesElem<T>>, g': Segment)
    requires InContext(c, s, g, end) && CommonBetween(s, end, g.lo) && AllKind(c, Common)
    requires InContext(c', s, g', end) && CommonBetween(s, end, g'.lo) && AllKind(c', Common)
    ensures g.lo == g'.lo && c == c'
  {
    FirstEdit(s, end, c, g);
    FirstEdit(s, end, c', g');
    assert g.lo + |c| == g'.lo + |c'|;
  }

  lemma FirstEdit<T>(s: seq<SesElem<T>>, end: nat, c: seq<SesElem<T>>, g: Segment)
    requires InContext(c, s, g, end) && CommonBetween(s, end, g.lo) && AllKind(c, Common)
    ensures CommonBetween(s, end, g.lo + |c|) && s[g.lo + |c|].kind != Common
  {
    forall i | end <= i < g.lo + |c|
      ensures s[i].kind == Common
    {
      if i >= g.lo {
        assert c[i - g.lo] == s[i];
      }
    }
  }

  lemma NotLonger<T>(s: seq<SesElem<T>>, g: Segment, g': Segment)
    requires CutAtGaps(s, g) && CutAtGaps(s, g') && g.lo == g'.lo
    ensures g'.hi <= g.hi
  {
    var e: nat :| LastEdit(s, g, e);
    var e': nat :| LastEdit(s, g', e');
    assert g.hi < |s| ==> FiveCommons(s, e + 1);
  }

  lemma SameHunk<T>(s: seq<SesElem<T>>, h: UniHunk<T>, h': UniHunk<T>, g: Segment)
    requires Holds(h, s, g) && Holds(h', s, g) && Placed(h, s, g) && Placed(h', s, g)
    requires h.common0 == h'.common0 && h.common1 == h'.common1 == []
    ensures h == h'
  {
    hide DeletesMovedFirst, Keep;
    var n := |h.common0|;
    assert h.change == Lines(h)[n..] && h'.change == Lines(h')[n..];
  }

  /** Two descriptions that agree on their first n hunks. */
  ghost predicate AgreeOn<T>(hunks: seq<UniHunk<T>>, segs: seq<Segment>,
      hunks': seq<UniHunk<T>>, segs': seq<Segment>, n: nat) {
    && n <= |segs| == |hunks| && n <= |segs'| == |hunks'|
    && segs[..n] == segs'[..n] && hunks[..n] == hunks'[..n]
  }

  lemma OneMore<T>(hunks: seq<UniHunk<T>>, segs: seq<Segment>, hunks': seq<UniHunk<T>>, segs': seq<Segment>, n: nat)
    requires AgreeOn(hunks, segs, hunks', segs', n) && n < |segs| && n < |segs'|
    requires segs[n] == segs'[n] && hunks[n] == hunks'[n]
    ensures AgreeOn(hunks, segs, hunks', segs', n + 1)
  {
    assert segs[..n + 1] == segs[..n] + [segs[n]] && segs'[..n + 1] == segs'[..n] + [segs'[n]];
    assert hunks[..n + 1] == hunks[..n] + [hunks[n]] && hunks'[..n + 1] == hunks'[..n] + [hunks'[n]];
  }

  /** What is known of one hunk. */
  ghost predicate Known<T>(h: UniHunk<T>, s: seq<SesElem<T>>, g: Segment, end: nat) {
    && Holds(h, s, g) && Placed(h, s, g) && CommonBetween(s, end, g.lo)
    && h.common1 == [] && InContext(h.common0, s, g, end) && CutAtGaps(s, g)
  }

  lemma KnownAt<T>(hunks: seq<UniHunk<T>>, segs: seq<Segment>, s: seq<SesElem<T>>, j: nat)
    requires Describes(hunks, segs, s, true) && Cuts(hunks, segs, s) && j < |segs|
    ensures |hunks| == |segs| && Known(hunks[j], s, segs[j], EndOf(segs[..j]))
  {
    hide Holds, Placed, CommonBetween, InContext, CutAtGaps;
  }

  lemma SameKnown<T>(s: seq<SesElem<T>>, h: UniHunk<T>, g: Segment, h': UniHunk<T>, g': Segment, end: nat)
    requires Known(h, s, g, end) && Known(h', s, g', end)
    ensures g == g' && h == h'
  {
    hide InContext, CutAtGaps, Lines, DeletesMovedFirst, Keep, Placed;
    SameStart(s, end, h.common0, g, h'.common0, g');
    Bounds(s, g);
    NotLonger(s, g, g');
    NotLonger(s, g', g);
    SameHunk(s, h, h', g);
  }

  lemma Bounds<T>(s: seq<SesElem<T>>, g: Segment)
    requires CutAtGaps(s, g)
    ensures g.lo <= g.hi
  {
  }

  /** A hunk that follows has an edit behind the end of the one before. */
  lemma NotTheEnd<T>(s: seq<SesElem<T>>, h: UniHunk<T>, g: Segment, end: nat)
    requires Known(h, s, g, end)
    ensures !CommonBetween(s, end, |s|)
  {
    hide Lines, DeletesMovedFirst, Keep, Placed, CutAtGaps;
    FirstEdit(s, end, h.common0, g);
  }

  /** One more hunk of two descriptions that agree so far. */
  lemma SameNext<T>(hunks: seq<UniHunk<T>>, segs: seq<Segment>, hunks': seq<UniHunk<T>>, segs': seq<Segment>,
                    s: seq<SesElem<T>>, n: nat)
    requires Describes(hunks, segs, s, true) && Cuts(hunks, segs, s)
    requires Describes(hunks', segs', s, true) && Cuts(hunks', segs', s)
    requires AgreeOn(hunks, segs, hunks', segs', n) && n < |segs|
    ensures AgreeOn(hunks, segs, hunks', segs', n + 1)
  {
    hide Known, Cuts, Covers, CommonBetween;
    var end := EndOf(segs[..n]);
    KnownAt(hunks, segs, s, n);
    NotTheEnd(s, hunks[n], segs[n], end);
    assert segs'[..|segs'|] == segs';
    KnownAt(hunks', segs', s, n);
    SameKnown(s, hunks[n], segs[n], hunks'[n], segs'[n], end);
    OneMore(hunks, segs, hunks', segs', n);
  }

  /** However the hunks of a script are found: if they hold its edits, are truly placed, keep
      three entries of context on either side, and are cut where five common entries follow
      an edit and nowhere else, they are these hunks. */
  lemma HunksAreDetermined<T>(hunks: seq<UniHunk<T>>, segs: seq<Segment>,
      hunks': seq<UniHunk<T>>, segs': seq<Segment>, s: seq<SesElem<T>>)
    requires Describes(hunks, segs, s, true) && Cuts(hunks, segs, s)
    requires Describes(hunks', segs', s, true) && Cuts(hunks', segs', s)
    ensures hunks == hunks'
  {
    hide Describes;
    if |segs| <= |segs'| {
      AgreeAll(hunks, segs, hunks', segs', s);
    } else {
      AgreeAll(hunks', segs', hunks, segs, s);
    }
  }

  lemma AgreeAll<T>(hunks: seq<UniHunk<T>>, segs: seq<Segment>, hunks': seq<UniHunk<T>>, segs': seq<Segment>,
                    s: seq<SesElem<T>>)
    requires Describes(hunks, segs, s, true) && Cuts(hunks, segs, s)
    requires Describes(hunks', segs', s, true) && Cuts(hunks', segs', s) && |segs| <= |segs'|
    ensures hunks == hunks'
  {
    hide Describes, InContext, CutAtGaps;
    var n := 0;
    while n < |segs|
      invariant n <= |segs| && AgreeOn(hunks, segs, hunks', segs', n)
    {
      SameNext(hunks, segs, hunks', segs', s, n);
      n := n + 1;
    }
    if n < |segs'| {
      AgreeBackwards(hunks, segs, hunks', segs', n);
      SameNext(hunks', segs', hunks, segs, s, n);
    }
    assert hunks[..n] == hunks && hunks'[..n] == hunks';
  }

  lemma AgreeBackwards<T>(hunks: seq<UniHunk<T>>, segs: seq<Segment>,
      hunks': seq<UniHunk<T>>, segs': seq<Segment>, n: nat)
    requires AgreeOn(hunks, segs, hunks', segs', n)
    ensures AgreeOn(hunks', segs', hunks, segs, n)
  {
  }

  lemma CoversSnoc<T>(hunks: seq<UniHunk<T>>, segs: seq<Segment>,
      s: seq<SesElem<T>>, placed: bool, h: UniHunk<T>, g: Segment)
    requires Covers(hunks, segs, s, placed) && Holds(h, s, g) && (placed ==> Placed(h, s, g))
    requires CommonBetween(s, EndOf(segs), g.lo)
    ensures Covers(hunks + [h], segs + [g], s, placed)
  {
    hide Holds, Placed, CommonBetween;
    forall j | 0 <= j < |segs| + 1
      ensures Holds((hunks + [h])[j], s, (segs + [g])[j])
      ensures placed ==> Placed((hunks + [h])[j], s, (segs + [g])[j])
      ensures CommonBetween(s, EndOf((segs + [g])[..j]), (segs + [g])[j].lo)
    {
      assert (segs + [g])[..j] == segs[..j];
      assert segs[..|segs|] == segs;
    }
  }

  // ----- gathering

  /** The lines gathered so far are the entries from `lo` to `i`, deletions first. */
  ghost predicate Gathered<T>(s: seq<SesElem<T>>, lo: nat, i: nat, common0: seq<SesElem<T>>, change: seq<SesElem<T>>,
                              deletes: seq<SesElem<T>>, adds: seq<SesElem<T>>, b: int, d: int, inc: int)
  {
    && lo <= i <= |s|
    && DeletesMovedFirst(s[lo..i]) == common0 + change + deletes + adds
    && DeletePoint(s[lo..i]) == |common0 + change + deletes|
    && b == |Before(s[lo..i])| && d == |After(s[lo..i])| && inc == d - b
  }

  lemma GatherCounts<T>(s: seq<SesElem<T>>, lo: nat, i: nat)
    requires lo <= i < |s|
    ensures s[lo..i + 1] == s[lo..i] + [s[i]]
    ensures |Before(s[lo..i + 1])| == |Before(s[lo..i])| + if s[i].kind == Add then 0 else 1
    ensures |After(s[lo..i + 1])| == |After(s[lo..i])| + if s[i].kind == Delete then 0 else 1
  {
    assert s[lo..i + 1] == s[lo..i] + [s[i]];
    KeepSnoc(s[lo..i], s[i], {Delete, Common});
    KeepSnoc(s[lo..i], s[i], {Add, Common});
    assert s[i].kind.Delete? || s[i].kind.Common? || s[i].kind.Add?;
  }

  lemma GatherNothing<T>(s: seq<SesElem<T>>, i: nat)
    requires i <= |s|
    ensures Gathered(s, i, i, [], [], [], [], 0, 0, 0)
  {
    assert s[i..i] == [];
  }

  lemma GatherAdd<T>(s: seq<SesElem<T>>, lo: nat, i: nat, common0: seq<SesElem<T>>, change: seq<SesElem<T>>,
                     deletes: seq<SesElem<T>>, adds: seq<SesElem<T>>, b: int, d: int, inc: int)
    requires Gathered(s, lo, i, common0, change, deletes, adds, b, d, inc) && i < |s| && s[i].kind == Add
    ensures Gathered(s, lo, i + 1, common0, change, deletes, adds + [s[i]], b, d + 1, inc + 1)
  {
    hide DeletesMovedFirst, DeletePoint, Keep;
    GatherCounts(s, lo, i);
    MovedSnoc(s[lo..i], s[i]);
    assert common0 + change + deletes + (adds + [s[i]]) == (common0 + change + deletes + adds) + [s[i]];
  }

  lemma GatherDelete<T>(s: seq<SesElem<T>>, lo: nat, i: nat, common0: seq<SesElem<T>>, change: seq<SesElem<T>>,
                        deletes: seq<SesElem<T>>, adds: seq<SesElem<T>>, b: int, d: int, inc: int)
    requires Gathered(s, lo, i, common0, change, deletes, adds, b, d, inc) && i < |s| && s[i].kind == Delete
    ensures Gathered(s, lo, i + 1, common0, change, deletes + [s[i]], adds, b + 1, d, inc - 1)
  {
    hide DeletesMovedFirst, DeletePoint, Keep;
    GatherCounts(s, lo, i);
    MovedSnoc(s[lo..i], s[i]);
    var head := common0 + change + deletes;
    assert (head + adds)[..|head|] == head && (head + adds)[|head|..] == adds;
    assert common0 + change + (deletes + [s[i]]) == head + [s[i]];
  }

  lemma GatherCommon<T>(s: seq<SesElem<T>>, lo: nat, i: nat, common0: seq<SesElem<T>>, change: seq<SesElem<T>>,
                        deletes: seq<SesElem<T>>, adds: seq<SesElem<T>>, b: int, d: int, inc: int)
    requires Gathered(s, lo, i, common0, change, deletes, adds, b, d, inc) && i < |s| && s[i].kind == Common
    ensures Gathered(s, lo, i + 1, common0, change + deletes + adds + [s[i]], [], [], b + 1, d + 1, inc)
    ensures change == deletes == adds == [] ==> Gathered(s, lo, i + 1, common0 + [s[i]], [], [], [], b + 1, d + 1, inc)
  {
    hide DeletesMovedFirst, DeletePoint, Keep;
    GatherCounts(s, lo, i);
    MovedSnoc(s[lo..i], s[i]);
    var all := (common0 + change + deletes + adds) + [s[i]];
    assert common0 + (change + deletes + adds + [s[i]]) + [] + [] == all;
    assert common0 + (change + deletes + adds + [s[i]]) + [] == all;
    assert change == deletes == adds == [] ==>
        common0 + [s[i]] + [] + [] + [] == all && common0 + [s[i]] + [] + [] == all;
  }

  /** Before the first edit the gathered lines are plain context, of which the oldest
      line can be dropped. */
  lemma {:induction false} GatherContext<T>(s: seq<SesElem<T>>, lo: nat, i: nat)
    requires CommonBetween(s, lo, i)
    ensures Gathered(s, lo, i, s[lo..i], [], [], [], i - lo, i - lo, 0)
    decreases i - lo
  {
    hide Gathered;
    if lo == i {
      GatherNothing(s, i);
      assert s[lo..i] == [];
    } else {
      GatherContext(s, lo, i - 1);
      GatherCommon(s, lo, i - 1, s[lo..i - 1], [], [], [], i - 1 - lo, i - 1 - lo, 0);
      assert s[lo..i - 1] + [s[i - 1]] == s[lo..i];
    }
  }

  /** Lines of both sides in front of position i. */
  lemma Preceding<T>(s: seq<SesElem<T>>, i: nat)
    requires i < |s|
    ensures |Before(s[..i + 1])| == |Before(s[..i])| + if s[i].kind == Add then 0 else 1
    ensures |After(s[..i + 1])| == |After(s[..i])| + if s[i].kind == Delete then 0 else 1
  {
    GatherCounts(s, 0, i);
    assert s[0..i] == s[..i] && s[0..i + 1] == s[..i + 1];
  }

  // ----- patching

  lemma {:induction false} CommonGap<T>(s: seq<SesElem<T>>, lo: nat, hi: nat)
    requires CommonBetween(s, lo, hi)
    ensures Before(s[lo..hi]) == After(s[lo..hi]) && |Before(s[lo..hi])| == hi - lo
    decreases hi - lo
  {
    if lo < hi {
      CommonGap(s, lo, hi - 1);
      assert s[lo..hi] == s[lo..hi - 1] + [s[hi - 1]];
      KeepSnoc(s[lo..hi - 1], s[hi - 1], {Delete, Common});
      KeepSnoc(s[lo..hi - 1], s[hi - 1], {Add, Common});
    } else {
      assert s[lo..hi] == [];
    }
  }

  lemma SplitSides<T>(s: seq<SesElem<T>>, i: nat, j: nat)
    requires i <= j <= |s|
    ensures Before(s[..j]) == Before(s[..i]) + Before(s[i..j])
    ensures After(s[..j]) == After(s[..i]) + After(s[i..j])
    ensures Before(s) == Before(s[..j]) + Before(s[j..])
    ensures After(s) == After(s[..j]) + After(s[j..])
  {
    assert s[..j] == s[..i] + s[i..j] && s == s[..j] + s[j..];
    KeepConcat(s[..i], s[i..j], {Delete, Common});
    KeepConcat(s[..i], s[i..j], {Add, Common});
    KeepConcat(s[..j], s[j..], {Delete, Common});
    KeepConcat(s[..j], s[j..], {Add, Common});
  }

  /** A hunk reads and writes what its segment reads and writes. */
  lemma HunkSides<T>(h: UniHunk<T>, s: seq<SesElem<T>>, g: Segment)
    requires Holds(h, s, g)
    ensures Before(Lines(h)) == Before(s[g.lo..g.hi]) && After(Lines(h)) == After(s[g.lo..g.hi])
  {
    MovingKeepsMeaning(s[g.lo..g.hi], {Delete, Common});
    MovingKeepsMeaning(s[g.lo..g.hi], {Add, Common});
  }

  // ----- true line numbers

  lemma IndexedSnoc<T>(s: seq<SesElem<T>>, e: SesElem<T>)
    requires Indexed(s)
    requires e.kind == Common ==> e.beforeIdx == |Before(s)| + 1 && e.afterIdx == |After(s)| + 1
    ensures Indexed(s + [e])
  {
    forall i | 0 <= i < |s| + 1 && (s + [e])[i].kind == Common
      ensures (s + [e])[i].beforeIdx == |Before((s + [e])[..i])| + 1
        && (s + [e])[i].afterIdx == |After((s + [e])[..i])| + 1
    {
      assert (s + [e])[..i] == s[..i];
      assert s[..|s|] == s;
    }
  }

  lemma {:induction false} IndexedEdits<T>(s: seq<SesElem<T>>, t: seq<SesElem<T>>)
    requires Indexed(s) && forall i :: 0 <= i < |t| ==> t[i].kind != Common
    ensures Indexed(s + t)
    decreases |t|
  {
    if t == [] {
      assert s + t == s;
    } else {
      IndexedEdits(s, t[..|t| - 1]);
      IndexedSnoc(s + t[..|t| - 1], t[|t| - 1]);
      assert s + t == (s + t[..|t| - 1]) + [t[|t| - 1]];
    }
  }

  lemma IndexedPrefix<T>(s: seq<SesElem<T>>, n: nat)
    requires Indexed(s) && n <= |s|
    ensures Indexed(s[..n])
  {
    forall i | 0 <= i < n && s[..n][i].kind == Common
      ensures s[..n][i].beforeIdx == |Before(s[..n][..i])| + 1 && s[..n][i].afterIdx == |After(s[..n][..i])| + 1
    {
      assert s[..n][..i] == s[..i];
    }
  }

  /** Moving deletions first keeps every common entry on its line. */
  lemma {:induction false} MovingKeepsIndices<T>(s: seq<SesElem<T>>)
    requires Indexed(s)
    ensures Indexed(DeletesMovedFirst(s))
    decreases |s|
  {
    hide Keep, OfKind;
    var n := LastCommon(s);
    if n == 0 {
      IndexedEdits([], MovedRun(s));
      assert [] + MovedRun(s) == MovedRun(s);
    } else {
      var s' := s[..n - 1];
      IndexedPrefix(s, n - 1);
      MovingKeepsIndices(s');
      MovingKeepsMeaning(s', {Delete, Common});
      MovingKeepsMeaning(s', {Add, Common});
      IndexedSnoc(DeletesMovedFirst(s'), s[n - 1]);
      IndexedEdits(DeletesMovedFirst(s') + [s[n - 1]], MovedRun(s[n..]));
    }
  }
}
