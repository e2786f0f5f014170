/** Gathering unified hunks from a script in one pass, and patching with them. */
module HunkComposer {
  import opened Scripts
  import opened ScriptContainer
  import opened Hunks

  const SEPARATE_SIZE := 3
  const CONTEXT_SIZE := 3

  /** The local variables of the pass. */
  datatype Gather<T> = Gather(common0: seq<SesElem<T>>, change: seq<SesElem<T>>,
                              deletes: seq<SesElem<T>>, adds: seq<SesElem<T>>,
                              a: int, b: int, c: int, d: int, incDec: int, middle: int, isMiddle: bool, isAfter: bool)

  /** True start lines, once there is context; before that both are still 0. */
  ghost predicate Starts<T>(s: seq<SesElem<T>>, lo: nat, empty: bool, a: int, c: int, swapped: bool) {
    lo <= |s| &&
    if empty then a == c == 0
    else (if swapped then c else a) == |Before(s[..lo])| + 1 && (if swapped then a else c) == |After(s[..lo])| + 1
  }

  /** The state between two entries: everything from `lo` to `i` is gathered, and the
      entries from the last hunk's end to `lo` are common. */
  ghost predicate InHunk<T>(s: seq<SesElem<T>>, end: nat, lo: nat, i: nat, g: Gather<T>, swapped: bool, placed: bool) {
    && lo <= i <= |s| && CommonBetween(s, end, lo)
    && (g.isAfter ==> GatheredLines(s, lo, i, g.common0, g.change, g.b, g.d, g.incDec) && g.change != [] && g.isMiddle)
    && (g.isAfter && i < |s| ==> g.deletes == g.adds == [])
    && (!g.isAfter || i < |s| ==> Gathered(s, lo, i, g.common0, g.change, g.deletes, g.adds, g.b, g.d, g.incDec))
    && |g.common0| <= 3 && AllKind(g.common0, Common)
    && (!g.isMiddle <==> g.change == g.deletes == g.adds == [])
    && (!g.isMiddle ==> CommonBetween(s, lo, i) && g.common0 == s[lo..i] && (|g.common0| < 3 ==> lo == end))
    && (g.isMiddle && g.common0 == [] ==> lo == 0)
    && (placed ==> Starts(s, lo, g.common0 == [], g.a, g.c, swapped))
  }

  method TakeEdit<T>(s: seq<SesElem<T>>, i: nat, g: Gather<T>,
      swapped: bool, ghost end: nat, ghost lo: nat, ghost placed: bool)
    returns (r: Gather<T>)
    requires i < |s| && InHunk(s, end, lo, i, g, swapped, placed) && !g.isAfter && s[i].kind != Common
    requires end > 0 && end == i ==> s[i].kind == Common
    ensures InHunk(s, end, lo, i + 1, r, swapped, placed)
    ensures r.isMiddle && (r.isAfter <==> i + 1 == |s|) && r.middle == 0 && r.common0 == g.common0
  {
    hide Gathered, GatheredLines, Starts;
    var e := s[i];
    if e.kind == Add {
      GatherAdd(s, lo, i, g.common0, g.change, g.deletes, g.adds, g.b, g.d, g.incDec);
      r := g.(middle := 0, incDec := g.incDec + 1, adds := g.adds + [e], isMiddle := true, d := g.d + 1);
    } else {
      GatherDelete(s, lo, i, g.common0, g.change, g.deletes, g.adds, g.b, g.d, g.incDec);
      r := g.(middle := 0, incDec := g.incDec - 1, deletes := g.deletes + [e], isMiddle := true, b := g.b + 1);
    }
    if i + 1 >= |s| {
      GatherJoin(s, lo, i + 1, r.common0, r.change, r.deletes, r.adds, r.b, r.d, r.incDec);
      r := r.(change := r.change + r.deletes + r.adds, isAfter := true);
    }
  }

  lemma GatherJoin<T>(s: seq<SesElem<T>>, lo: nat, i: nat, common0: seq<SesElem<T>>, change: seq<SesElem<T>>,
                      deletes: seq<SesElem<T>>, adds: seq<SesElem<T>>, b: int, d: int, inc: int)
    requires Gathered(s, lo, i, common0, change, deletes, adds, b, d, inc)
    ensures GatheredLines(s, lo, i, common0, change + deletes + adds, b, d, inc)
  {
    assert common0 + change + deletes + adds == common0 + (change + deletes + adds);
  }

  /** The same without regard to where the next deletion would go. */
  ghost predicate GatheredLines<T>(s: seq<SesElem<T>>, lo: nat, i: nat, common0: seq<SesElem<T>>,
                                   change: seq<SesElem<T>>, b: int, d: int, inc: int)
  {
    && lo <= i <= |s|
    && DeletesMovedFirst(s[lo..i]) == common0 + change
    && b == |Before(s[lo..i])| && d == |After(s[lo..i])| && inc == d - b
  }

  /** InHunk while no edit has been seen. */
  ghost predicate Idle<T>(s: seq<SesElem<T>>, end: nat, lo: nat, i: nat, g: Gather<T>, swapped: bool, placed: bool) {
    && CommonBetween(s, end, lo) && CommonBetween(s, lo, i) && i - lo <= 3 && (i - lo < 3 ==> lo == end)
    && g.common0 == s[lo..i] && g.change == g.deletes == g.adds == []
    && g.b == g.d == i - lo && g.incDec == 0 && !g.isMiddle && !g.isAfter
    && (placed ==> Starts(s, lo, g.common0 == [], g.a, g.c, swapped))
  }

  lemma IdleIsInHunk<T>(s: seq<SesElem<T>>, end: nat, lo: nat, i: nat, g: Gather<T>, swapped: bool, placed: bool)
    ensures Idle(s, end, lo, i, g, swapped, placed)
       <==> InHunk(s, end, lo, i, g, swapped, placed) && !g.isMiddle && !g.isAfter
  {
    hide Gathered, GatheredLines, Keep, Starts;
    if CommonBetween(s, lo, i) && g.change == g.deletes == g.adds == [] {
      GatherContext(s, lo, i);
      if Gathered(s, lo, i, g.common0, [], [], [], g.b, g.d, g.incDec) {
        GatheredCounts(s, lo, i, g.common0, [], [], [], g.b, g.d, g.incDec);
      }
      assert AllKind(s[lo..i], Common);
    }
  }

  /** The common entry in front of a first edit: context for a hunk that may follow. */
  method TakeContext<T>(s: seq<SesElem<T>>, i: nat, g: Gather<T>,
      swapped: bool, ghost end: nat, ghost lo: nat, ghost placed: bool)
    returns (r: Gather<T>, ghost lo': nat)
    requires i < |s| && InHunk(s, end, lo, i, g, swapped, placed) && !g.isMiddle && !g.isAfter && s[i].kind == Common
    requires placed ==> Indexed(s)
    ensures InHunk(s, end, lo', i + 1, r, swapped, placed) && !r.isMiddle && !r.isAfter
  {
    hide InHunk, Starts, Indexed;
    IdleIsInHunk(s, end, lo, i, g, swapped, placed);
    var e := s[i];
    r := g.(b := g.b + 1, d := g.d + 1);
    TakeSlice(s, lo, i);
    if |g.common0| < CONTEXT_SIZE {
      lo' := lo;
      if r.a == 0 && r.c == 0 {
        if !swapped {
          r := r.(a := e.beforeIdx, c := e.afterIdx);
        } else {
          r := r.(a := e.afterIdx, c := e.beforeIdx);
        }
      }
      StartsFirst(s, lo, i, g.common0 == [], g.a, g.c, swapped, placed);
      r := r.(common0 := r.common0 + [e]);
    } else {
      lo' := lo + 1;
      StartsNext(s, lo, g.a, g.c, swapped, placed);
      r := r.(common0 := r.common0[1..] + [e], a := r.a + 1, c := r.c + 1, b := r.b - 1, d := r.d - 1);
    }
    IdleIsInHunk(s, end, lo', i + 1, r, swapped, placed);
  }

  lemma TakeSlice<E>(s: seq<E>, lo: nat, i: nat)
    requires lo <= i < |s|
    ensures s[lo..i] + [s[i]] == s[lo..i + 1]
    ensures lo < i ==> s[lo..i][1..] + [s[i]] == s[lo + 1..i + 1]
  {
  }

  lemma StartsFirst<T>(s: seq<SesElem<T>>, lo: nat, i: nat, empty: bool, a: int, c: int, swapped: bool, placed: bool)
    requires lo <= i < |s| && s[i].kind == Common && (empty ==> lo == i)
    requires placed ==> Indexed(s) && Starts(s, lo, empty, a, c, swapped)
    ensures var unset := a == 0 && c == 0;
      var a' := if !unset then a else if swapped then s[i].afterIdx else s[i].beforeIdx;
      var c' := if !unset then c else if swapped then s[i].beforeIdx else s[i].afterIdx;
      placed ==> Starts(s, lo, false, a', c', swapped)
  {
  }

  lemma StartsNext<T>(s: seq<SesElem<T>>, lo: nat, a: int, c: int, swapped: bool, placed: bool)
    requires lo < |s| && s[lo].kind == Common
    requires placed ==> Starts(s, lo, false, a, c, swapped)
    ensures placed ==> Starts(s, lo + 1, false, a + 1, c + 1, swapped)
  {
    Preceding(s, lo);
  }

  lemma GatheredCounts<T>(s: seq<SesElem<T>>, lo: nat, i: nat, common0: seq<SesElem<T>>, change: seq<SesElem<T>>,
                          deletes: seq<SesElem<T>>, adds: seq<SesElem<T>>, b: int, d: int, inc: int)
    requires Gathered(s, lo, i, common0, change, deletes, adds, b, d, inc)
    requires CommonBetween(s, lo, i)
    ensures b == d == i - lo && inc == 0
  {
    CommonGap(s, lo, i);
  }

  /** A common entry behind an edit joins the change and may end the hunk. */
  method TakeTrailing<T>(s: seq<SesElem<T>>, i: nat, g: Gather<T>,
      swapped: bool, ghost end: nat, ghost lo: nat, ghost placed: bool)
    returns (r: Gather<T>)
    requires i < |s| && InHunk(s, end, lo, i, g, swapped, placed) && g.isMiddle && !g.isAfter && s[i].kind == Common
    ensures InHunk(s, end, lo, i + 1, r, swapped, placed) && r.isMiddle && r.middle == g.middle + 1
    ensures (r.isAfter <==> r.middle >= SEPARATE_SIZE || i + 1 == |s|) && r.common0 == g.common0
  {
    hide Gathered;
    GatherCommon(s, lo, i, g.common0, g.change, g.deletes, g.adds, g.b, g.d, g.incDec);
    r := g.(b := g.b + 1, d := g.d + 1, middle := g.middle + 1, change := g.change + g.deletes + g.adds + [s[i]]);
    if r.middle >= SEPARATE_SIZE || i + 1 >= |s| {
      r := r.(isAfter := true);
    }
    r := r.(adds := [], deletes := []);
    GatherJoin(s, lo, i + 1, r.common0, r.change, [], [], r.b, r.d, r.incDec);
    assert r.change + [] + [] == r.change;
  }

  /** How many of the three entries from `i` on are common. */
  method CountCommons<T>(s: seq<SesElem<T>>, i: nat) returns (cnt: nat)
    requires i < |s|
    ensures cnt <= SEPARATE_SIZE
    ensures cnt == SEPARATE_SIZE <==> CommonBetween(s, i, i + 3)
  {
    var n, cit := 0, i;
    cnt := 0;
    while n < SEPARATE_SIZE && cit < |s|
      invariant 0 <= n <= SEPARATE_SIZE && cit == i + n <= |s|
      invariant cnt <= n && (cnt == n <==> forall k :: i <= k < cit ==> s[k].kind == Common)
    {
      if s[cit].kind == Common {
        cnt := cnt + 1;
      }
      n, cit := n + 1, cit + 1;
    }
  }

  /** The hunk that the gathered lines make up. */
  method CloseHunk<T>(s: seq<SesElem<T>>, i: nat, g: Gather<T>,
      swapped: bool, ghost end: nat, ghost lo: nat, ghost placed: bool)
    returns (h: UniHunk<T>)
    requires InHunk(s, end, lo, i, g, swapped, placed) && g.isAfter
    ensures Holds(h, s, Segment(lo, i)) && (placed ==> Placed(h, s, Segment(lo, i)))
    ensures h.common1 == [] && h.common0 == g.common0
  {
    hide Keep, DeletesMovedFirst;
    var common0, a, c := g.common0, g.a, g.c;
    if |common0| >= SEPARATE_SIZE {
      var c0size := |common0|;
      common0 := common0[c0size - SEPARATE_SIZE..];
      a, c := a + (c0size - SEPARATE_SIZE), c + (c0size - SEPARATE_SIZE);
      assert common0 == g.common0;
    }
    if a == 0 {
      a := a + 1;
    }
    if c == 0 {
      c := c + 1;
    }
    if swapped {
      a, c := c, a;
    }
    h := UniHunk(a, g.b, c, g.d, common0, g.change, [], g.incDec);
    assert Lines(h) == common0 + g.change;
    if placed && g.common0 == [] {
      assert s[..0] == [];
      NothingBefore<T>();
    }
  }

  lemma NothingBefore<T>()
    ensures Before<T>([]) == [] && After<T>([]) == []
  {
  }

  // ----- where hunks begin and end

  /** The first edit of a hunk follows its context. */
  ghost predicate FirstFollows<T>(s: seq<SesElem<T>>, end: nat, lo: nat, i: nat, g: Gather<T>) {
    g.isMiddle ==> InContext(g.common0, s, Segment(lo, i), end)
  }

  lemma EditFollows<T>(s: seq<SesElem<T>>, end: nat, lo: nat, i: nat, g: Gather<T>, swapped: bool, placed: bool)
    requires InHunk(s, end, lo, i, g, swapped, placed) && FirstFollows(s, end, lo, i, g) && i < |s|
    requires g.isMiddle || s[i].kind != Common
    ensures InContext(g.common0, s, Segment(lo, i + 1), end)
  {
    hide Gathered, GatheredLines, Starts;
  }

  /** What the counter `middle` says: it counts the common entries behind the last edit e,
      and starts again after three that were not enough to end the hunk. */
  ghost predicate Tracks<T>(s: seq<SesElem<T>>, lo: nat, i: nat, isMiddle: bool, middle: int, e: nat) {
    && lo <= i <= |s| && NoWideGap(s, lo, i) && (!isMiddle ==> CommonBetween(s, lo, i))
    && (isMiddle ==>
         && lo <= e < i && s[e].kind != Common && CommonBetween(s, e + 1, i) && i - e <= 5
         && middle == (if i - e <= 3 then i - e - 1 else i - e - 4)
         && (i - e >= 4 ==> !FiveCommons(s, e + 1)))
  }

  lemma TrackEdit<T>(s: seq<SesElem<T>>, lo: nat, i: nat, isMiddle: bool, middle: int, e: nat)
    requires Tracks(s, lo, i, isMiddle, middle, e) && i < |s| && s[i].kind != Common
    ensures Tracks(s, lo, i + 1, true, 0, i)
    ensures i + 1 == |s| ==> CutAtGaps(s, Segment(lo, i + 1))
  {
    if i + 1 == |s| {
      assert LastEdit(s, Segment(lo, i + 1), i);
    }
  }

  /** One more common entry behind an edit: the third one ends the hunk if two more follow,
      and so does the last entry of the script. */
  lemma TrackCommon<T>(s: seq<SesElem<T>>, lo: nat, i: nat, middle: int, e: nat)
    requires Tracks(s, lo, i, true, middle, e) && i < |s| && s[i].kind == Common
    ensures middle + 1 < SEPARATE_SIZE ==> Tracks(s, lo, i + 1, true, middle + 1, e)
    ensures middle + 1 >= SEPARATE_SIZE && !CommonBetween(s, i, i + 3) ==> Tracks(s, lo, i + 1, true, 0, e)
    ensures (middle + 1 >= SEPARATE_SIZE && CommonBetween(s, i, i + 3)) || i + 1 == |s|
      ==> CutAtGaps(s, Segment(lo, i + 1))
  {
    assert i - e < 5;
    WidensTo(s, lo, i, e);
    if (middle + 1 >= SEPARATE_SIZE && CommonBetween(s, i, i + 3)) || i + 1 == |s| {
      assert LastEdit(s, Segment(lo, i + 1), e);
    }
  }

  lemma WidensTo<T>(s: seq<SesElem<T>>, lo: nat, i: nat, e: nat)
    requires NoWideGap(s, lo, i) && i < |s| && e < i <= e + 4 && s[e].kind != Common
    ensures NoWideGap(s, lo, i + 1)
  {
    forall k: nat | lo <= k && k + 5 <= i + 1 ensures !FiveCommons(s, k) {
      assert k + 5 == i + 1 ==> k <= e < k + 5;
    }
  }

  /** Before the first edit there are at most three entries. */
  lemma TrackContext<T>(s: seq<SesElem<T>>, lo: nat, i: nat)
    requires CommonBetween(s, lo, i) && i - lo <= 3
    ensures Tracks(s, lo, i, false, 0, 0)
  {
  }

  /** One pass over the script. The hunks always hold the script's edits; if its common
      entries carry true line numbers, the hunks are placed truly as well. A hunk begins three
      common entries before its first edit, or where the hunk before ended. It ends where five
      common entries follow its last edit, three of which it keeps, or with the script. */
  method Compose<T>(s: seq<SesElem<T>>, swapped: bool) returns (hunks: seq<UniHunk<T>>, ghost segs: seq<Segment>)
    ensures Describes(hunks, segs, s, Indexed(s))
    ensures Cuts(hunks, segs, s)
    ensures forall j :: 0 <= j < |hunks| ==> |hunks[j].common0| <= CONTEXT_SIZE && hunks[j].common1 == []
  {
    hide Indexed, Covers, Gathered, GatheredLines, Starts, Holds, Placed, InHunk, Tracks, CutAtGaps, Cuts, InContext;
    ghost var placed := Indexed(s);
    hunks, segs := [], [];
    var g: Gather<T> := Gather([], [], [], [], 0, 0, 0, 0, 0, 0, false, false);
    ghost var lo: nat, e: nat := 0, 0;
    StartHere<T>(s, 0, placed, swapped);
    TrackContext(s, 0, 0);
    CoversNothing<T>(s, placed);
    CutsNothing<T>(s);
    for i := 0 to |s|
      invariant InHunk(s, EndOf(segs), lo, i, g, swapped, placed) && !g.isAfter
      invariant Tracks(s, lo, i, g.isMiddle, g.middle, e)
      invariant Covers(hunks, segs, s, placed)
      invariant Cuts(hunks, segs, s)
      invariant FirstFollows(s, EndOf(segs), lo, i, g)
      invariant 0 < EndOf(segs) == i < |s| ==> s[i].kind == Common
      invariant i == |s| ==> !g.isMiddle
    {
      ghost var end := EndOf(segs);
      AfterIsFull(s, end, lo, i, g, swapped, placed);
      if g.isMiddle || s[i].kind != Common {
        EditFollows(s, end, lo, i, g, swapped, placed);
      }
      if s[i].kind != Common {
        TrackEdit(s, lo, i, g.isMiddle, g.middle, e);
        g := TakeEdit(s, i, g, swapped, end, lo, placed);
        e := i;
      } else if !g.isMiddle {
        g, lo := TakeContext(s, i, g, swapped, end, lo, placed);
        ContextIsShort(s, end, lo, i + 1, g, swapped, placed, e);
      } else {
        TrackCommon(s, lo, i, g.middle, e);
        g := TakeTrailing(s, i, g, swapped, end, lo, placed);
      }
      AfterIsFull(s, end, lo, i + 1, g, swapped, placed);
      if g.isAfter && g.change != [] {
        var cnt := CountCommons(s, i);
        if cnt < SEPARATE_SIZE && i + 1 < |s| {
          Resume(s, end, lo, i + 1, g, swapped, placed);
          g := g.(middle := 0, isAfter := false);
        } else {
          assert i + 1 < |s| ==> s[i + 1].kind == Common;
          var h := CloseHunk(s, i + 1, g, swapped, end, lo, placed);
          CoversSnoc(hunks, segs, s, placed, h, Segment(lo, i + 1));
          CutsSnoc(hunks, segs, s, h, Segment(lo, i + 1));
          hunks, segs := hunks + [h], segs + [Segment(lo, i + 1)];
          g := Gather([], [], [], [], 0, 0, 0, 0, 0, 0, false, false);
          lo, e := i + 1, 0;
          StartHere<T>(s, i + 1, placed, swapped);
          TrackContext(s, i + 1, i + 1);
        }
      }
    }
    IdleAtTheEnd(s, EndOf(segs), lo, g, swapped, placed);
    CutsMean(hunks, segs, s);
  }

  lemma CutsMean<T>(hunks: seq<UniHunk<T>>, segs: seq<Segment>, s: seq<SesElem<T>>)
    requires Cuts(hunks, segs, s)
    ensures forall j :: 0 <= j < |hunks| ==> |hunks[j].common0| <= CONTEXT_SIZE && hunks[j].common1 == []
  {
    hide CutAtGaps;
  }

  lemma ContextIsShort<T>(s: seq<SesElem<T>>, end: nat, lo: nat, i: nat,
                          g: Gather<T>, swapped: bool, placed: bool, e: nat)
    requires InHunk(s, end, lo, i, g, swapped, placed) && !g.isMiddle
    ensures Tracks(s, lo, i, g.isMiddle, g.middle, e)
  {
  }

  lemma AfterIsFull<T>(s: seq<SesElem<T>>, end: nat, lo: nat, i: nat, g: Gather<T>, swapped: bool, placed: bool)
    requires InHunk(s, end, lo, i, g, swapped, placed)
    ensures lo <= i <= |s| && CommonBetween(s, end, lo) && (g.isAfter ==> g.change != [])
  {
  }

  lemma Resume<T>(s: seq<SesElem<T>>, end: nat, lo: nat, i: nat, g: Gather<T>, swapped: bool, placed: bool)
    requires InHunk(s, end, lo, i, g, swapped, placed) && g.isAfter && i < |s|
    ensures InHunk(s, end, lo, i, g.(middle := 0, isAfter := false), swapped, placed)
  {
    hide Gathered, GatheredLines, Starts;
  }

  lemma IdleAtTheEnd<T>(s: seq<SesElem<T>>, end: nat, lo: nat, g: Gather<T>, swapped: bool, placed: bool)
    requires InHunk(s, end, lo, |s|, g, swapped, placed) && !g.isMiddle
    ensures CommonBetween(s, end, |s|)
  {
  }

  lemma StartHere<T>(s: seq<SesElem<T>>, i: nat, placed: bool, swapped: bool)
    requires i <= |s|
    ensures InHunk(s, i, i, i, Gather([], [], [], [], 0, 0, 0, 0, 0, 0, false, false), swapped, placed)
  {
    hide Gathered;
    GatherNothing(s, i);
  }

  lemma CutsNothing<T>(s: seq<SesElem<T>>)
    ensures Cuts<T>([], [], s)
  {
  }

  lemma CoversNothing<T>(s: seq<SesElem<T>>, placed: bool)
    ensures Covers<T>([], [], s, placed)
  {
  }

  // ----- patching with hunks; a list and its cursor are the elements on either side

  method PatchLines<T>(lines: seq<SesElem<T>>, left: seq<T>, right: seq<T>) returns (left': seq<T>, right': seq<T>)
    ensures |Before(lines)| <= |right| ==>
        right' == right[|Before(lines)|..] && |left'| == |left| + |After(lines)|
    ensures Before(lines) <= right ==> left' == left + After(lines)
  {
    hide Keep;
    left', right' := left, right;
    NoCalls<T>();
    assert lines[..0] == [];
    for k := 0 to |lines|
      invariant |Before(lines[..k])| <= |Before(lines)|
      invariant |Before(lines)| <= |right| ==>
          right' == right[|Before(lines[..k])|..] && |left'| == |left| + |After(lines[..k])|
      invariant Before(lines) <= right ==> left' == left + After(lines[..k])
    {
      PatchStep(lines, k);
      match lines[k].kind {
        case Add => left' := left' + [lines[k].elem];
        case Delete =>
          if right' != [] {
            right' := right'[1..];
          }
        case Common =>
          if right' != [] {
            left', right' := left' + [right'[0]], right'[1..];
          }
      }
    }
    assert lines[..|lines|] == lines;
  }

  method Advance<T>(n: int, left: seq<T>, right: seq<T>) returns (left': seq<T>, right': seq<T>)
    requires n <= |right|
    ensures 0 <= n ==> left' == left + right[..n] && right' == right[n..]
    ensures n < 0 ==> left' == left && right' == right
  {
    left', right' := left, right;
    var i := 0;
    while i < n
      invariant 0 <= i && (0 <= n ==> i <= n) && (n < 0 ==> i == 0)
      invariant left' == left + right[..i] && right' == right[i..]
    {
      left', right', i := left' + [right'[0]], right'[1..], i + 1;
    }
  }

  /** How far patching has come: the cursor stands behind the first `at` entries of the
      script, in a sequence that starts like the script's base or not. */
  ghost predicate PatchedTo<T>(s: seq<SesElem<T>>, at: nat, base: seq<T>, left: seq<T>, right: seq<T>) {
    && at <= |s| && |Before(s[..at])| <= |Before(s)| <= |base|
    && right == base[|Before(s[..at])|..] && |left| == |After(s[..at])|
    && (Before(s) <= base ==> left == After(s[..at]))
  }

  lemma PatchOverGap<T>(s: seq<SesElem<T>>, at: nat, lo: nat, base: seq<T>, left: seq<T>, right: seq<T>)
    requires PatchedTo(s, at, base, left, right) && CommonBetween(s, at, lo)
    ensures lo - at <= |right| && PatchedTo(s, lo, base, left + right[..lo - at], right[lo - at..])
    ensures |Before(s[..lo])| == |Before(s[..at])| + lo - at
    ensures |After(s[..lo])| == |After(s[..at])| + lo - at
  {
    hide Keep;
    CommonGap(s, at, lo);
    SplitSides(s, at, lo);
    SplitSides(s, at, at);
    if Before(s) <= base {
      assert right[..lo - at] == Before(s)[|Before(s[..at])|..][..lo - at];
    }
  }

  lemma PatchOverSegment<T>(s: seq<SesElem<T>>, lo: nat, hi: nat,
      base: seq<T>, left: seq<T>, right: seq<T>, left': seq<T>, right': seq<T>)
    requires PatchedTo(s, lo, base, left, right) && lo <= hi <= |s|
    requires var b, a := Before(s[lo..hi]), After(s[lo..hi]);
      && (|b| <= |right| ==> right' == right[|b|..] && |left'| == |left| + |a|)
      && (b <= right ==> left' == left + a)
    ensures PatchedTo(s, hi, base, left', right')
  {
    hide Keep;
    SplitSides(s, lo, hi);
    if Before(s) <= base {
      assert right == Before(s[lo..hi]) + Before(s[hi..]) + base[|Before(s)|..];
    }
  }

  /** One hunk: advance to its start, then apply its lines. */
  method PatchHunk<T>(h: UniHunk<T>, incDecTotal: int, gap: int, left: seq<T>, right: seq<T>,
                      ghost g: Segment, ghost script: seq<SesElem<T>>, ghost at: nat, ghost base: seq<T>)
    returns (h': UniHunk<T>, incDecTotal': int, gap': int, left': seq<T>, right': seq<T>)
    requires Holds(h, script, g) && Placed(h, script, g) && CommonBetween(script, at, g.lo)
    requires PatchedTo(script, at, base, left, right)
    requires incDecTotal == |After(script[..at])| - |Before(script[..at])| && gap == |After(script[..at])| + 1
    ensures h' == h.(a := h.c)
    ensures PatchedTo(script, g.hi, base, left', right')
    ensures incDecTotal' == |After(script[..g.hi])| - |Before(script[..g.hi])| && gap' == |After(script[..g.hi])| + 1
  {
    hide Keep, PatchedTo, DeletesMovedFirst;
    PatchOverGap(script, at, g.lo, base, left, right);
    HunkSides(h, script, g);
    SplitSides(script, g.lo, g.hi);
    var shunk := h.common0 + h.change + h.common1;
    h' := h.(a := h.a + incDecTotal);
    incDecTotal' := incDecTotal + h'.incDecCount;
    left', right' := Advance(h'.a - gap, left, right);
    gap' := h'.a + h'.b + h'.incDecCount;
    ghost var left0, right0 := left', right';
    left', right' := PatchLines(shunk, left', right');
    PatchOverSegment(script, g.lo, g.hi, base, left0, right0, left', right');
  }

  /** Patch with hunks that describe `script` and are truly placed. The hunks' start
      lines are rewritten on the way: afterwards they are those of the patched side. */
  method Patch<T>(hunks: seq<UniHunk<T>>, base: seq<T>, ghost segs: seq<Segment>, ghost script: seq<SesElem<T>>)
    returns (hunks': seq<UniHunk<T>>, r: seq<T>)
    requires Describes(hunks, segs, script, true) && |Before(script)| <= |base|
    ensures |r| == |base| + |After(script)| - |Before(script)|
    ensures Before(script) <= base ==> r == After(script) + base[|Before(script)|..]
    ensures |hunks'| == |hunks| && forall j :: 0 <= j < |hunks| ==> hunks'[j] == hunks[j].(a := hunks[j].c)
  {
    hide Keep, PatchedTo, Holds, Placed;
    var left, right := [], base;
    var incDecTotal, gap := 0, 1;
    hunks' := hunks;
    ghost var at: nat := 0;
    PatchStart(script, base);
    for j := 0 to |hunks|
      invariant |hunks'| == |hunks| && PatchedTo(script, at, base, left, right) && at == EndOf(segs[..j]) <= |script|
      invariant incDecTotal == |After(script[..at])| - |Before(script[..at])| && gap == |After(script[..at])| + 1
      invariant forall k :: 0 <= k < |hunks| ==> hunks'[k] == if k < j then hunks[k].(a := hunks[k].c) else hunks[k]
    {
      var h;
      HoldsInside(hunks[j], script, segs[j]);
      h, incDecTotal, gap, left, right :=
        PatchHunk(hunks'[j], incDecTotal, gap, left, right, segs[j], script, at, base);
      hunks' := hunks'[j := h];
      at := segs[j].hi;
      assert segs[..j + 1][j] == segs[j];
    }
    assert segs[..|hunks|] == segs;
    PatchOverGap(script, at, |script|, base, left, right);
    PatchEnd(script, base, left, right, at);
    r := left + right;
  }

  lemma HoldsInside<T>(h: UniHunk<T>, s: seq<SesElem<T>>, g: Segment)
    requires Holds(h, s, g)
    ensures g.hi <= |s|
  {
  }

  lemma PatchStart<T>(s: seq<SesElem<T>>, base: seq<T>)
    requires |Before(s)| <= |base|
    ensures PatchedTo(s, 0, base, [], base) && s[..0] == [] && Before(s[..0]) == [] && After(s[..0]) == []
  {
    assert s[..0] == [];
    NoCalls<T>();
  }

  lemma PatchEnd<T>(s: seq<SesElem<T>>, base: seq<T>, left: seq<T>, right: seq<T>, at: nat)
    requires at <= |s| && |s| - at <= |right|
    requires PatchedTo(s, |s|, base, left + right[..|s| - at], right[|s| - at..])
    ensures |left + right| == |base| + |After(s)| - |Before(s)|
    ensures Before(s) <= base ==> left + right == After(s) + base[|Before(s)|..]
  {
    assert s[..|s|] == s;
    assert left + right == (left + right[..|s| - at]) + right[|s| - at..];
  }

  /** After a patch every hunk still holds its part of the script; the hunks still describe
      the script with true start lines exactly when no hunk had moved. */
  lemma PatchedHunksStillFit<T>(hunks: seq<UniHunk<T>>, hunks': seq<UniHunk<T>>,
      segs: seq<Segment>, script: seq<SesElem<T>>)
    requires Describes(hunks, segs, script, true)
    requires |hunks'| == |hunks| && forall j :: 0 <= j < |hunks| ==> hunks'[j] == hunks[j].(a := hunks[j].c)
    ensures Describes(hunks', segs, script, false)
    ensures Describes(hunks', segs, script, true) <==> forall j :: 0 <= j < |hunks| ==> hunks[j].a == hunks[j].c
  {
    hide Keep, DeletesMovedFirst;
    forall j | 0 <= j < |hunks|
      ensures Holds(hunks'[j], script, segs[j])
      ensures Placed(hunks'[j], script, segs[j]) <==> hunks[j].a == hunks[j].c
    {
      assert Holds(hunks[j], script, segs[j]) && Placed(hunks[j], script, segs[j]);
      assert Lines(hunks'[j]) == Lines(hunks[j]);
    }
    if Describes(hunks', segs, script, true) {
      forall j | 0 <= j < |hunks| ensures hunks[j].a == hunks[j].c {
        assert Placed(hunks'[j], script, segs[j]);
      }
    }
  }
}
