/** Rules that become active when enough events of a group come within a time: the stored
    events of one rule against a definition over everything that ever happened to it. */
module Activation {

  datatype Event = Event(groups: set<string>, fields: map<string, string>, log: string)

  /** The settings of the rule. */
  datatype Settings = Settings(time: nat, rate: nat, group: string, reset: bool, sameField: string)

  /** An event with the time it was stored at. */
  datatype Stamped = Stamped(time: int, event: Event)

  /** What can happen to a rule: it is checked against an event, with the clock read once to
      stamp the event and once to find out what is too old; or it fires for an event. */
  datatype Entry = Checked(event: Event, stamp: int, now: int) | Fired(event: Event)

  // ----- the definition

  predicate SameField(a: Settings, e: Event, f: Event) {
    a.sameField in e.fields && a.sameField in f.fields && e.fields[a.sameField] == f.fields[a.sameField]
  }

  /** Firing for `fired` discards `e`. */
  predicate Discards(a: Settings, fired: Event, e: Event) {
    a.reset && (a.sameField == "" || SameField(a, fired, e))
  }

  /** Entry i brought in an event of the group that no later reset discarded and that is no
      older than the time of the rule. */
  ghost predicate InWindow(a: Settings, h: seq<Entry>, now: int, i: nat)
    requires i < |h|
  {
    && h[i].Checked? && a.group in h[i].event.groups && h[i].stamp + a.time >= now
    && forall j :: i < j < |h| && h[j].Fired? ==> !Discards(a, h[j].event, h[i].event)
  }

  /** The events in the window among the first n entries, in order. */
  ghost function Window(a: Settings, h: seq<Entry>, now: int, n: nat): seq<Stamped>
    requires n <= |h|
  {
    if n == 0 then []
    else Window(a, h, now, n - 1) + if InWindow(a, h, now, n - 1) then [Stamped(h[n - 1].stamp, h[n - 1].event)] else []
  }

  function CountSame(a: Settings, s: seq<Stamped>, e: Event): nat {
    if s == [] then 0 else CountSame(a, s[..|s| - 1], e) + if SameField(a, e, s[|s| - 1].event) then 1 else 0
  }

  /** The rate is reached, by events with the same field as this one if the rule says so. */
  predicate Reached(a: Settings, window: seq<Stamped>, e: Event) {
    if a.sameField == "" then |window| >= a.rate
    else a.sameField in e.fields && CountSame(a, window, e) >= a.rate
  }

  /** The clock never goes back. */
  ghost predicate Clocked(h: seq<Entry>, last: int) {
    && (forall i :: 0 <= i < |h| && h[i].Checked? ==> h[i].stamp <= last)
    && (forall i, j :: 0 <= i < j < |h| && h[i].Checked? && h[j].Checked? ==> h[i].stamp <= h[j].stamp)
  }

  // ----- what the stored events go through

  /** multimap::emplace: behind everything that is not later. */
  function Emplace(s: seq<Stamped>, x: Stamped): seq<Stamped> {
    if s == [] then [x]
    else if s[|s| - 1].time <= x.time then s + [x]
    else Emplace(s[..|s| - 1], x) + [s[|s| - 1]]
  }

  predicate TooOld(a: Settings, x: Stamped, now: int) { x.time + a.time < now }

  /** Erase from the front while the first entry is too old. */
  function DropOld(a: Settings, s: seq<Stamped>, now: int): seq<Stamped> {
    if s != [] && TooOld(a, s[0], now) then DropOld(a, s[1..], now) else s
  }

  function Without(a: Settings, s: seq<Stamped>, fired: Event): seq<Stamped> {
    if s == [] then []
    else Without(a, s[..|s| - 1], fired) + if Discards(a, fired, s[|s| - 1].event) then [] else [s[|s| - 1]]
  }

  function Recent(a: Settings, s: seq<Stamped>, now: int): seq<Stamped> {
    if s == [] then []
    else Recent(a, s[..|s| - 1], now) + if TooOld(a, s[|s| - 1], now) then [] else [s[|s| - 1]]
  }

  ghost predicate InOrder(s: seq<Stamped>) { forall i, j :: 0 <= i < j < |s| ==> s[i].time <= s[j].time }

  lemma {:induction false} RecentCons(a: Settings, x: Stamped, s: seq<Stamped>, now: int)
    ensures Recent(a, [x] + s, now) == (if TooOld(a, x, now) then [] else [x]) + Recent(a, s, now)
  {
    if s == [] {
      assert [x] + s == [x] && [x][..0] == [];
    } else {
      assert ([x] + s)[..|s|] == [x] + s[..|s| - 1];
      RecentCons(a, x, s[..|s| - 1], now);
    }
  }

  lemma {:induction false} AllRecent(a: Settings, s: seq<Stamped>, now: int)
    requires forall i :: 0 <= i < |s| ==> !TooOld(a, s[i], now)
    ensures Recent(a, s, now) == s
  {
    if s != [] {
      AllRecent(a, s[..|s| - 1], now);
      assert s == s[..|s| - 1] + [s[|s| - 1]];
    }
  }

  /** Erasing from the front is enough because the entries are in order. */
  lemma {:induction false} DropOldIsRecent(a: Settings, s: seq<Stamped>, now: int)
    requires InOrder(s)
    ensures DropOld(a, s, now) == Recent(a, s, now)
  {
    if s != [] && TooOld(a, s[0], now) {
      DropOldIsRecent(a, s[1..], now);
      assert s == [s[0]] + s[1..];
      RecentCons(a, s[0], s[1..], now);
    } else {
      AllRecent(a, s, now);
    }
  }

  // ----- the window, entry by entry

  lemma {:induction false} WindowInOrder(a: Settings, h: seq<Entry>, now: int, n: nat, last: int)
    requires n <= |h| && Clocked(h, last)
    ensures InOrder(Window(a, h, now, n))
    ensures forall i :: 0 <= i < |Window(a, h, now, n)| ==> Window(a, h, now, n)[i].time <= last
    ensures forall i, j ::
      0 <= i < |Window(a, h, now, n)| && n <= j < |h| && h[j].Checked? ==> Window(a, h, now, n)[i].time <= h[j].stamp
  {
    hide InWindow;
    if n > 0 {
      WindowInOrder(a, h, now, n - 1, last);
      InWindowChecked(a, h, now, n - 1);
    }
  }

  lemma InWindowChecked(a: Settings, h: seq<Entry>, now: int, i: nat)
    requires i < |h|
    ensures InWindow(a, h, now, i) ==> h[i].Checked?
  {
  }

  /** A further check discards nothing by itself. */
  lemma {:induction false} WindowAfterCheck(a: Settings, h: seq<Entry>, e: Entry, now: int, n: nat)
    requires n <= |h| && e.Checked?
    ensures Window(a, h + [e], now, n) == Window(a, h, now, n)
  {
    if n > 0 {
      WindowAfterCheck(a, h, e, now, n - 1);
      assert (h + [e])[n - 1] == h[n - 1];
      assert InWindow(a, h + [e], now, n - 1) == InWindow(a, h, now, n - 1) by {
        assert forall j :: 0 <= j < |h| ==> (h + [e])[j] == h[j];
      }
    }
  }

  /** Time passes: what is too old falls out. */
  lemma {:induction false} WindowLater(a: Settings, h: seq<Entry>, now: int, later: int, n: nat)
    requires n <= |h| && now <= later
    ensures Window(a, h, later, n) == Recent(a, Window(a, h, now, n), later)
  {
    if n > 0 {
      WindowLater(a, h, now, later, n - 1);
      var w := Window(a, h, now, n - 1);
      assert w + [] == w;
      if InWindow(a, h, now, n - 1) {
        var x := Stamped(h[n - 1].stamp, h[n - 1].event);
        assert (w + [x])[..|w|] == w;
      }
    }
  }

  /** The rule fires: what the reset discards falls out. */
  lemma {:induction false} WindowAfterFiring(a: Settings, h: seq<Entry>, fired: Event, now: int, n: nat)
    requires n <= |h|
    ensures Window(a, h + [Fired(fired)], now, n) == Without(a, Window(a, h, now, n), fired)
  {
    if n > 0 {
      WindowAfterFiring(a, h, fired, now, n - 1);
      var h' := h + [Fired(fired)];
      FiringDiscards(a, h, fired, now, n - 1);
      var w := Window(a, h, now, n - 1);
      assert w + [] == w;
      if InWindow(a, h, now, n - 1) {
        var x := Stamped(h[n - 1].stamp, h[n - 1].event);
        assert (w + [x])[..|w|] == w;
      }
    }
  }

  lemma FiringDiscards(a: Settings, h: seq<Entry>, fired: Event, now: int, i: nat)
    requires i < |h|
    ensures InWindow(a, h + [Fired(fired)], now, i) <==> InWindow(a, h, now, i) && !Discards(a, fired, h[i].event)
  {
    var h' := h + [Fired(fired)];
    assert h'[|h|] == Fired(fired) && forall j :: 0 <= j < |h| ==> h'[j] == h[j];
  }

  /** The whole window after one more check. */
  lemma WindowOfCheck(a: Settings, h: seq<Entry>, e: Entry, now: int)
    requires e.Checked? && now <= e.now
    ensures Window(a, h + [e], e.now, |h| + 1)
         == Recent(a, Window(a, h, now, |h|)
                      + if a.group in e.event.groups then [Stamped(e.stamp, e.event)] else [], e.now)
  {
    WindowAfterCheck(a, h, e, e.now, |h|);
    WindowLater(a, h, now, e.now, |h|);
    var w, x := Window(a, h, now, |h|), Stamped(e.stamp, e.event);
    assert (w + [x])[..|w|] == w && w + [] == w;
    assert (h + [e])[|h|] == e;
  }

  lemma WindowOfFiring(a: Settings, h: seq<Entry>, fired: Event, now: int)
    ensures Window(a, h + [Fired(fired)], now, |h| + 1) == Without(a, Window(a, h, now, |h|), fired)
  {
    WindowAfterFiring(a, h, fired, now, |h|);
    assert !InWindow(a, h + [Fired(fired)], now, |h|);
  }

  // ----- what the check may conclude from the window

  lemma {:induction false} CountSameBound(a: Settings, s: seq<Stamped>, e: Event)
    ensures CountSame(a, s, e) <= |s|
  {
    if s != [] {
      CountSameBound(a, s[..|s| - 1], e);
    }
  }

  /** Entry j fired the rule, for an event with the same field as that of entry i if the rule
      has such a field. */
  predicate FiredOver(a: Settings, h: seq<Entry>, i: nat, j: nat)
    requires i < |h| && h[i].Checked?
  {
    && i < j < |h| && h[j].Fired?
    && (a.sameField != "" ==>
         && a.sameField in h[j].event.fields && a.sameField in h[i].event.fields
         && h[j].event.fields[a.sameField] == h[i].event.fields[a.sameField])
  }

  /** Entry i is a check of an event of the group, it is not too old, and no firing since then
      has reset it. */
  ghost predicate Counts(a: Settings, h: seq<Entry>, now: int, i: nat) {
    && i < |h| && h[i].Checked? && a.group in h[i].event.groups && now - h[i].stamp <= a.time
    && !(a.reset && exists j: nat :: FiredOver(a, h, i, j))
  }

  lemma CountsMeans(a: Settings, h: seq<Entry>, now: int, i: nat)
    requires i < |h|
    ensures InWindow(a, h, now, i) <==> Counts(a, h, now, i)
  {
    if h[i].Checked? {
      forall j: nat | i < j < |h| && h[j].Fired?
        ensures a.reset && FiredOver(a, h, i, j) <==> Discards(a, h[j].event, h[i].event)
      {
      }
    }
  }

  predicate HasSame(a: Settings, e: Event, f: Event) {
    a.sameField in e.fields && a.sameField in f.fields && e.fields[a.sameField] == f.fields[a.sameField]
  }

  /** The entries that count among the first n. */
  ghost function Counting(a: Settings, h: seq<Entry>, now: int, n: nat): set<nat> {
    set i: nat | i < n && Counts(a, h, now, i)
  }

  /** Those with the same field as e. */
  ghost function CountingSame(a: Settings, h: seq<Entry>, now: int, n: nat, e: Event): set<nat> {
    set i: nat | i < n && Counts(a, h, now, i) && HasSame(a, h[i].event, e)
  }

  lemma OneMoreCounts(a: Settings, h: seq<Entry>, now: int, m: nat, e: Event)
    requires m < |h|
    ensures Counts(a, h, now, m) ==> h[m].Checked?
    ensures |Counting(a, h, now, m + 1)| == |Counting(a, h, now, m)| + if Counts(a, h, now, m) then 1 else 0
    ensures |CountingSame(a, h, now, m + 1, e)|
         == |CountingSame(a, h, now, m, e)| + if Counts(a, h, now, m) && HasSame(a, h[m].event, e) then 1 else 0
  {
    hide FiredOver, HasSame;
    var all, same := Counting(a, h, now, m), CountingSame(a, h, now, m, e);
    assert Counting(a, h, now, m + 1) == if Counts(a, h, now, m) then all + {m} else all;
    assert CountingSame(a, h, now, m + 1, e)
      == if Counts(a, h, now, m) && HasSame(a, h[m].event, e) then same + {m} else same;
  }

  lemma {:induction false} WindowCounts(a: Settings, h: seq<Entry>, now: int, n: nat, e: Event)
    requires n <= |h|
    ensures |Window(a, h, now, n)| == |Counting(a, h, now, n)|
    ensures CountSame(a, Window(a, h, now, n), e) == |CountingSame(a, h, now, n, e)|
  {
    hide Counts, InWindow, Counting, CountingSame;
    if n == 0 {
      NothingCounts(a, h, now, e);
    } else {
      WindowCounts(a, h, now, n - 1, e);
      CountsMeans(a, h, now, n - 1);
      OneMoreCounts(a, h, now, n - 1, e);
      var w := Window(a, h, now, n - 1);
      assert w + [] == w;
      if InWindow(a, h, now, n - 1) {
        var x := Stamped(h[n - 1].stamp, h[n - 1].event);
        assert (w + [x])[..|w|] == w;
      }
    }
  }

  lemma NothingCounts(a: Settings, h: seq<Entry>, now: int, e: Event)
    ensures Counting(a, h, now, 0) == {} && CountingSame(a, h, now, 0, e) == {}
  {
  }

  /** When the rule is active: as many entries count as the rate says; with a same field the
      event has that field, and as many have the same. */
  lemma ActiveMeans(a: Settings, h: seq<Entry>, now: int, e: Event)
    ensures Reached(a, Window(a, h, now, |h|), e) <==>
      if a.sameField == "" then |Counting(a, h, now, |h|)| >= a.rate
      else a.sameField in e.fields && |CountingSame(a, h, now, |h|, e)| >= a.rate
  {
    hide Window, Counts, CountSame, InWindow;
    WindowCounts(a, h, now, |h|, e);
  }

  /** On the very first event the check answers "inactive" without counting. For an event
      that is counted, that is right exactly when the rate is at least two. */
  lemma FirstEventShortcut(a: Settings, e: Event, stamp: int)
    requires a.group in e.groups && (a.sameField == "" || a.sameField in e.fields)
    ensures !Reached(a, Window(a, [Checked(e, stamp, stamp)], stamp, 1), e) <==> a.rate >= 2
  {
    var h := [Checked(e, stamp, stamp)];
    assert InWindow(a, h, stamp, 0) && Window(a, h, stamp, 0) == [];
    assert Window(a, h, stamp, 1) == [Stamped(stamp, e)];
    assert [Stamped(stamp, e)][..0] == [] && CountSame(a, [], e) == 0;
    assert CountSame(a, [Stamped(stamp, e)], e) == if SameField(a, e, e) then 1 else 0;
  }

  /** Without a tagged event nothing can be in the window. */
  lemma {:induction false} NothingTagged(a: Settings, h: seq<Entry>, now: int, n: nat)
    requires n <= |h| && Untagged(a, h)
    ensures Window(a, h, now, n) == []
  {
    if n > 0 {
      NothingTagged(a, h, now, n - 1);
    }
  }

  ghost predicate Untagged(a: Settings, h: seq<Entry>) {
    forall i :: 0 <= i < |h| && h[i].Checked? ==> a.group !in h[i].event.groups
  }

  /** One event is too few when the rate is at least two. */
  lemma TooFew(a: Settings, window: seq<Stamped>, e: Event)
    requires |window| <= 1 && a.rate >= 2
    ensures !Reached(a, window, e)
  {
    CountSameBound(a, window, e);
  }

  lemma EmplaceLast(s: seq<Stamped>, x: Stamped)
    requires forall i :: 0 <= i < |s| ==> s[i].time <= x.time
    ensures Emplace(s, x) == s + [x]
  {
  }

  lemma ClockedMore(h: seq<Entry>, last: int, e: Entry, last': int)
    requires Clocked(h, last) && last <= last' && (e.Checked? ==> last <= e.stamp <= last')
    ensures Clocked(h + [e], last')
  {
  }

  // ----- erasing while iterating

  lemma {:induction false} WithoutConcat(a: Settings, s: seq<Stamped>, t: seq<Stamped>, fired: Event)
    ensures Without(a, s + t, fired) == Without(a, s, fired) + Without(a, t, fired)
  {
    if t == [] {
      assert s + t == s;
    } else {
      assert (s + t)[..|s + t| - 1] == s + t[..|t| - 1];
      WithoutConcat(a, s, t[..|t| - 1], fired);
    }
  }

  lemma {:induction false} WithoutUniform(a: Settings, s: seq<Stamped>, fired: Event, all: bool)
    requires forall i :: 0 <= i < |s| ==> Discards(a, fired, s[i].event) == all
    ensures Without(a, s, fired) == if all then [] else s
    decreases |s|
  {
    hide Discards;
    if s != [] {
      var front, last := s[..|s| - 1], s[|s| - 1];
      WithoutUniform(a, front, fired, all);
      assert Discards(a, fired, last.event) == all;
      assert s == front + [last];
    }
  }

  /** Erasing an element that is discarded anyway. */
  lemma WithoutErased(a: Settings, s: seq<Stamped>, fired: Event, i: nat)
    requires i < |s| && Discards(a, fired, s[i].event)
    ensures Without(a, s[..i] + s[i + 1..], fired) == Without(a, s, fired)
  {
    assert s == s[..i] + ([s[i]] + s[i + 1..]);
    WithoutConcat(a, s[..i], [s[i]] + s[i + 1..], fired);
    WithoutConcat(a, [s[i]], s[i + 1..], fired);
    WithoutUniform(a, [s[i]], fired, true);
    WithoutConcat(a, s[..i], s[i + 1..], fired);
  }

  /** The state kept for one activation rule. */
  class RuleState {
    const settings: Settings
    /** Whether the rule has an entry in the map of states yet. */
    var present: bool
    var mevents: seq<Stamped>
    /** Everything that happened to the rule, and the last time the clock was read. */
    ghost var history: seq<Entry>
    ghost var last: int

    ghost predicate Valid()
      reads this
    {
      && Clocked(history, last)
      && mevents == Window(settings, history, last, |history|)
      && (!present ==> Untagged(settings, history))
    }

    constructor (settings: Settings, now: int)
      ensures Valid() && this.settings == settings && history == [] && !present
    {
      this.settings := settings;
      present, mevents, history, last := false, [], [], now;
    }

    /** "delete too old entries": the loop stops at the first one that is not. */
    method Prune(now: int)
      requires InOrder(mevents)
      modifies `mevents
      ensures mevents == Recent(settings, old(mevents), now)
    {
      DropOldIsRecent(settings, mevents, now);
      while mevents != [] && TooOld(settings, mevents[0], now)
        invariant DropOld(settings, mevents, now) == DropOld(settings, old(mevents), now)
        decreases |mevents|
      {
        mevents := mevents[1..];
      }
    }

    /** "count same fields". */
    method CountEqual(e: Event) returns (same: nat)
      ensures same == CountSame(settings, mevents, e)
    {
      same := 0;
      for i := 0 to |mevents|
        invariant same == CountSame(settings, mevents[..i], e)
      {
        assert mevents[..i + 1][..i] == mevents[..i];
        if SameField(settings, e, mevents[i].event) {
          same := same + 1;
        }
      }
      assert mevents[..|mevents|] == mevents;
    }

    /** A check of a rule that has no state yet: the event is stored and nothing counted. */
    method FirstCheck(e: Event, stamp: int)
      requires Valid() && !present && last <= stamp
      modifies this
      ensures Valid() && last == stamp && history == old(history) + [Checked(e, stamp, stamp)] && |mevents| <= 1
    {
      hide InWindow;
      ghost var entry := Checked(e, stamp, stamp);
      NothingTagged(settings, history, last, |history|);
      WindowOfCheck(settings, history, entry, last);
      ClockedMore(history, last, entry, stamp);
      var found := settings.group in e.groups;
      assert Recent(settings, [], stamp) == [];
      assert [] + [Stamped(stamp, e)] == [Stamped(stamp, e)];
      AllRecent(settings, [Stamped(stamp, e)], stamp);
      if found {
        present := true;
        mevents := [Stamped(stamp, e)];
      }
      history, last := history + [entry], stamp;
    }

    /** A later check: store, prune, count. */
    method LaterCheck(e: Event, stamp: int, now: int) returns (active: bool)
      requires Valid() && present && last <= stamp <= now
      modifies this
      ensures Valid() && present && last == now && history == old(history) + [Checked(e, stamp, now)]
      ensures active == Reached(settings, mevents, e)
    {
      hide InWindow, Window;
      ghost var entry := Checked(e, stamp, now);
      WindowInOrder(settings, history, last, |history|, last);
      WindowOfCheck(settings, history, entry, last);
      ClockedMore(history, last, entry, now);
      assert mevents + [] == mevents;
      if settings.group in e.groups {
        EmplaceLast(mevents, Stamped(stamp, e));
        mevents := Emplace(mevents, Stamped(stamp, e));
      }
      Prune(now);
      history, last := history + [entry], now;
      active := false;
      CountSameBound(settings, mevents, e);
      if |mevents| >= settings.rate {
        if settings.sameField == "" {
          active := true;
        } else if settings.sameField in e.fields {
          var same := CountEqual(e);
          active := same >= settings.rate;
        }
      }
    }

    /** The activation part of a check. After it, exactly the events of the definition are
        stored, and the rule is active exactly when they reach the rate. */
    method Check(e: Event, stamp: int, now: int) returns (active: bool)
      requires Valid() && last <= stamp <= now && settings.rate >= 2
      modifies this
      ensures Valid() && last == (if old(present) then now else stamp)
      ensures history == old(history) + [Checked(e, stamp, last)]
      ensures active == Reached(settings, Window(settings, history, last, |history|), e)
      ensures settings.sameField == "" ==>
        (active <==> |Counting(settings, history, last, |history|)| >= settings.rate)
      ensures settings.sameField != "" ==>
        (active <==> settings.sameField in e.fields
                     && |CountingSame(settings, history, last, |history|, e)| >= settings.rate)
    {
      hide Counting, CountingSame, Window, Counts, InWindow;
      if !present {
        FirstCheck(e, stamp);
        TooFew(settings, mevents, e);
        active := false;
      } else {
        active := LaterCheck(e, stamp, now);
      }
      ActiveMeans(settings, history, last, e);
    }

    /** erase_if over the stored events. */
    method EraseSame(fired: Event)
      modifies `mevents
      ensures mevents == Without(settings, old(mevents), fired)
    {
      var i := 0;
      while i < |mevents|
        invariant 0 <= i <= |mevents|
        invariant Without(settings, mevents, fired) == Without(settings, old(mevents), fired)
        invariant forall k :: 0 <= k < i ==> !Discards(settings, fired, mevents[k].event)
        decreases |mevents| - i
      {
        if Discards(settings, fired, mevents[i].event) {
          WithoutErased(settings, mevents, fired, i);
          mevents := mevents[..i] + mevents[i + 1..];
        } else {
          i := i + 1;
        }
      }
      WithoutUniform(settings, mevents, fired, false);
    }

    /** The rule was chosen for an event: discard what its reset setting says. */
    method Fire(fired: Event)
      requires Valid()
      modifies this
      ensures Valid() && last == old(last) && history == old(history) + [Fired(fired)]
    {
      hide InWindow, Window;
      WindowOfFiring(settings, history, fired, last);
      ClockedMore(history, last, Fired(fired), last);
      if settings.reset && present {
        if settings.sameField == "" {
          WithoutUniform(settings, mevents, fired, true);
          mevents := [];
        } else if settings.sameField in fired.fields {
          EraseSame(fired);
        } else {
          WithoutUniform(settings, mevents, fired, false);
        }
      } else {
        if !settings.reset {
          WithoutUniform(settings, mevents, fired, false);
        } else {
          NothingTagged(settings, history, last, |history|);
        }
      }
      history := history + [Fired(fired)];
    }
  }
}
