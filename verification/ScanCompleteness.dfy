/** What a scan leaves behind when nothing changes while it runs: the rows are of the objects
    that are there, they say what is there, and no object is missing that was listed before
    or found by the walk. */
module ScanCompleteness {
  import opened Optional
  import opened Diskscan
  import opened ScanPipeline

  /** The objects that are there, by path. */
  type World = map<string, FileData>

  /** An observation of an object. The content may not have been looked at, unless the looks
      are full. */
  predicate Pictures(fd: FileData, thing: FileData, full: bool) {
    && fd.user == thing.user && fd.group == thing.group && fd.size == thing.size && fd.kind == thing.kind
    && fd.mode == thing.mode
    && (fd.contentChecked ==> fd.sha256 == thing.sha256 && fd.target == thing.target)
    && (full ==> fd.contentChecked)
  }

  predicate Agrees(fd: FileData, world: World, full: bool) {
    (fd.present <==> fd.path in world) && (fd.present ==> Pictures(fd, world[fd.path], full))
  }

  predicate SeenAgrees(seen: Option<FileData>, world: World, full: bool) {
    seen.Some? ==> Agrees(seen.value, world, full)
  }

  predicate ActionAgrees(a: Action, world: World, full: bool) {
    a.EventPut? || a.Realtime? ==> SeenAgrees(a.seen, world, full)
  }

  ghost predicate AllAgree(actions: seq<Action>, world: World, full: bool) {
    forall i :: 0 <= i < |actions| ==> ActionAgrees(actions[i], world, full)
  }

  /** A row of an object that is there, from which a look at the object would not differ. */
  predicate RowAgrees(p: string, row: Row, world: World, full: bool) {
    p in world && !Differs(row, world[p].(contentChecked := full))
  }

  // ----- mid marks and what the walk finds in front of them

  predicate TakesMid(s: System, a: Action) { a.ScanTake? && s.scanQ != [] && s.scanQ[0] == JobMark(Mid) }

  predicate HandlesMid(s: System, a: Action) { a.AlertTake? && s.dataQ != [] && s.dataQ[0] == Special(Mid) }

  /** How many mid marks the alert task handles in a run. */
  ghost function MidsHandled(s: System, actions: seq<Action>, blockSize: nat): nat
    requires Runs(s, actions, blockSize)
    decreases |actions|
  {
    if actions == [] then 0
    else
      (if HandlesMid(s, actions[0]) then 1 else 0) + MidsHandled(Do(s, actions[0], blockSize), actions[1..], blockSize)
  }

  /** The paths that the walk finds before the n-th mid mark leaves the scan queue. */
  ghost function Found(s: System, actions: seq<Action>, n: nat, blockSize: nat): set<string>
    requires Runs(s, actions, blockSize)
    decreases |actions|
  {
    if actions == [] then {}
    else Finds(actions[0], n) + Found(Do(s, actions[0], blockSize), actions[1..], ToTake(s, actions[0], n), blockSize)
  }

  function Finds(a: Action, n: nat): set<string> { if a.ScanEmit? && n > 0 then {a.path} else {} }

  function ToTake(s: System, a: Action, n: nat): nat { if n > 0 && TakesMid(s, a) then n - 1 else n }

  // ----- what the alert task keeps

  lemma ShownAgrees(row: Row, fd: FileData, world: World, full: bool)
    requires Shows(row, fd) && fd.present && Agrees(fd, world, full)
    ensures RowAgrees(fd.path, row, world, full)
  {
  }

  lemma QuietAgrees(row: Row, fd: FileData, world: World, full: bool)
    requires !Differs(row, fd) && fd.present && Agrees(fd, world, full)
    ensures RowAgrees(fd.path, row, world, full)
  {
  }

  lemma MarkedAgrees(p: string, row: Row, world: World, full: bool)
    ensures RowAgrees(p, row.(scanned := true), world, full) == RowAgrees(p, row, world, full)
  {
  }

  lemma UpdateShows(row: Row, fd: FileData)
    ensures Shows(UpdatedRow(row, fd), fd)
  {
  }

  lemma NewShows(fd: FileData)
    ensures Shows(NewRow(fd), fd)
  {
  }

  /** A row that counts as seen, now or when deferred marks are set, agrees with its object. */
  ghost predicate RowsAgree(s: Alerter, world: World, full: bool) {
    forall p :: p in s.table && (s.table[p].scanned || p in s.updateQueue) ==> RowAgrees(p, s.table[p], world, full)
  }

  /** So do the rows that wait. */
  ghost predicate WaitingAgree(s: seq<FileData>, world: World, full: bool) {
    forall i :: 0 <= i < |s| ==> s[i].present && Agrees(s[i], world, full)
  }

  lemma {:induction false} PutAgrees(s: seq<FileData>, fd: FileData, world: World, full: bool)
    requires WaitingAgree(s, world, full) && fd.present && Agrees(fd, world, full)
    ensures WaitingAgree(Put(s, fd), world, full)
  {
    hide Agrees, Less;
    if s != [] && !Less(fd.path, s[0].path) && s[0].path != fd.path {
      PutAgrees(s[1..], fd, world, full);
    }
  }

  lemma InsertedAgree(t: Table, s: seq<FileData>, world: World, full: bool)
    requires Deferred(t, s) && WaitingAgree(s, world, full)
    ensures forall p :: p in Paths(s) && p in Inserted(t, s) ==> RowAgrees(p, Inserted(t, s)[p], world, full)
  {
    hide Less, Sorted, Inserted, Agrees, RowAgrees, Shows;
    forall p | p in Paths(s) && p in Inserted(t, s)
      ensures RowAgrees(p, Inserted(t, s)[p], world, full)
    {
      var i :| 0 <= i < |s| && s[i].path == p;
      assert s[i] in s;
      InsertedShows(t, s, s[i]);
      ShownAgrees(Inserted(t, s)[p], s[i], world, full);
    }
  }

  lemma FlushAgrees(s: Alerter, world: World, full: bool)
    requires Deferred(s.table, s.insertSet) && WaitingAgree(s.insertSet, world, full) && RowsAgree(s, world, full)
    ensures RowsAgree(FlushInserts(s), world, full)
  {
    hide Less, Sorted, Inserted, RowAgrees, WaitingAgree;
    InsertedRows(s.table, s.insertSet);
    InsertedAgree(s.table, s.insertSet, world, full);
  }

  lemma UpdateAgrees(s: Alerter, world: World, full: bool)
    requires RowsAgree(s, world, full)
    ensures RowsAgree(FlushUpdates(s), world, full)
  {
    hide AllMarked, RowAgrees;
    AllMarkedRows(s.table, s.updateQueue);
    forall p | p in s.table && p in s.updateQueue
      ensures RowAgrees(p, s.table[p].(scanned := true), world, full)
    {
      MarkedAgrees(p, s.table[p], world, full);
    }
  }

  lemma KnownAgrees(s: Alerter, fd: FileData, force: bool, blockSize: nat, world: World, full: bool)
    requires fd.path in s.table && Agrees(fd, world, full) && RowsAgree(s, world, full)
    ensures RowsAgree(Known(s, fd, force, blockSize), world, full)
  {
    hide AllMarked, Differs, FlushUpdates, RowAgrees, UpdatedRow, Agrees, Shows;
    var p, row := fd.path, s.table[fd.path];
    var queued := s.(updateQueue := s.updateQueue + [p]);
    if fd.present {
      UpdateShows(row, fd);
      ShownAgrees(UpdatedRow(row, fd), fd, world, full);
      if !Differs(row, fd) {
        QuietAgrees(row, fd, world, full);
        MarkedAgrees(p, row, world, full);
        assert RowsAgree(queued, world, full);
        UpdateAgrees(queued, world, full);
      }
    }
  }

  lemma KnownInserts(s: Alerter, fd: FileData, force: bool, blockSize: nat)
    requires fd.path in s.table
    ensures Known(s, fd, force, blockSize).insertSet == s.insertSet
  {
    hide AllMarked, Differs;
  }

  lemma UnlistedAgrees(s: Alerter, fd: FileData, blockSize: nat, world: World, full: bool)
    requires Consistent(s) && fd.path !in s.table && Agrees(fd, world, full) && WaitingAgree(s.insertSet, world, full)
    ensures var s' := Unlisted(s, fd, blockSize);
      && WaitingAgree(s'.insertSet, world, full)
      && (RowsAgree(s, world, full) ==> RowsAgree(s', world, full))
  {
    hide Less, Sorted, Put, FlushInserts, RowAgrees, Agrees, NewRow, Shows;
    if fd.present {
      PutAgrees(s.insertSet, fd, world, full);
      PutPaths(s.insertSet, fd);
      PutSorted(s.insertSet, fd);
      NewShows(fd);
      ShownAgrees(NewRow(fd), fd, world, full);
      var s1 := s.(insertSet := Put(s.insertSet, fd));
      FlushedIsEmpty(s1);
      if RowsAgree(s, world, full) {
        FlushAgrees(s1, world, full);
      }
    }
  }

  lemma MidAgrees(s: Alerter, names: seq<string>, world: World, full: bool)
    requires Deferred(s.table, s.insertSet) && WaitingAgree(s.insertSet, world, full)
    ensures var s' := FlushUpdates(FlushInserts(s.(events := s.events + Phase2(names), inScan := false)));
      s'.insertSet == [] && (RowsAgree(s, world, full) ==> RowsAgree(s', world, full))
  {
    hide Less, Sorted, FlushInserts, AllMarked, Phase2, RowAgrees, WaitingAgree;
    var s1 := s.(events := s.events + Phase2(names), inScan := false);
    FlushedIsEmpty(s1);
    if RowsAgree(s, world, full) {
      FlushAgrees(s1, world, full);
      UpdateAgrees(FlushInserts(s1), world, full);
    }
  }

  lemma StepAgrees(s: Alerter, item: Item, names: seq<string>, blockSize: nat, world: World, full: bool)
    requires Consistent(s) && WaitingAgree(s.insertSet, world, full)
    requires item.Seen? ==> SeenAgrees(item.data, world, full)
    ensures var s' := Step(s, item, names, blockSize);
      && WaitingAgree(s'.insertSet, world, full)
      && ((if item == Special(Start) then !s.inScan else RowsAgree(s, world, full)) ==> RowsAgree(s', world, full))
  {
    hide Less, Sorted, Known, Unlisted, FlushInserts, FlushUpdates, Phase2, RowAgrees, Agrees, Differs;
    if item == Special(Mid) {
      MidAgrees(s, names, world, full);
    } else if item.Seen? && item.data.Some? {
      var fd := item.data.value;
      if fd.path in s.table {
        KnownInserts(s, fd, item.force, blockSize);
        if RowsAgree(s, world, full) {
          KnownAgrees(s, fd, item.force, blockSize, world, full);
        }
      } else {
        UnlistedAgrees(s, fd, blockSize, world, full);
      }
    }
  }

  // ----- what is still to be looked at

  /** The paths that are looked at before the n-th mid mark. */
  function Ahead(events: seq<Event>, n: nat): set<string> {
    if events == [] || n == 0 then {}
    else if events[0] == Marker(Mid) then Ahead(events[1..], n - 1)
    else (if events[0].Path? then {events[0].path} else {}) + Ahead(events[1..], n)
  }

  function Mids(events: seq<Event>): nat {
    if events == [] then 0 else (if events[0] == Marker(Mid) then 1 else 0) + Mids(events[1..])
  }

  lemma {:induction false} AheadGrows(a: seq<Event>, b: seq<Event>, n: nat)
    ensures Ahead(a, n) <= Ahead(a + b, n) && Mids(a + b) == Mids(a) + Mids(b)
  {
    if a == [] {
      assert a + b == b;
    } else {
      assert (a + b)[1..] == a[1..] + b && (a + b)[0] == a[0];
      AheadGrows(a[1..], b, n);
      if n > 0 {
        AheadGrows(a[1..], b, n - 1);
      }
    }
  }

  lemma {:induction false} AheadInsert(a: seq<Event>, e: Event, b: seq<Event>, n: nat)
    requires e.Path?
    ensures Ahead(a + b, n) <= Ahead(a + [e] + b, n) && Mids(a + [e] + b) == Mids(a + b)
    decreases |a|
  {
    if a == [] {
      assert a + b == b && (a + [e] + b)[1..] == b && (a + [e] + b)[0] == e;
    } else {
      assert (a + b)[1..] == a[1..] + b && (a + b)[0] == a[0];
      assert (a + [e] + b)[1..] == a[1..] + [e] + b && (a + [e] + b)[0] == a[0];
      AheadInsert(a[1..], e, b, n);
      if n > 0 {
        AheadInsert(a[1..], e, b, n - 1);
      }
    }
  }

  /** A path that is queued last is in front of the next mid mark to come. */
  lemma {:induction false} AheadLast(a: seq<Event>, p: string, force: bool, n: nat)
    requires n > Mids(a)
    ensures p in Ahead(a + [Path(p, force)], n)
  {
    if a == [] {
      assert a + [Path(p, force)] == [Path(p, force)];
    } else {
      assert (a + [Path(p, force)])[1..] == a[1..] + [Path(p, force)] && (a + [Path(p, force)])[0] == a[0];
      AheadLast(a[1..], p, force, if a[0] == Marker(Mid) then n - 1 else n);
    }
  }

  lemma AheadHead(e: Event, rest: seq<Event>, n: nat)
    ensures Mids([e] + rest) == (if e == Marker(Mid) then 1 else 0) + Mids(rest)
    ensures e == Marker(Mid) ==> Ahead([e] + rest, n) == Ahead(rest, if n > 0 then n - 1 else 0)
    ensures e.Path? && n > 0 ==> Ahead([e] + rest, n) == {e.path} + Ahead(rest, n)
    ensures e == Marker(Start) || e == Marker(End) ==> Ahead([e] + rest, n) == Ahead(rest, n)
    ensures Ahead(rest, 0) == {} && Ahead([e] + rest, 0) == {} && Mids([]) == 0
  {
    assert ([e] + rest)[1..] == rest;
    if e.Marker? {
      assert e.mark.Start? || e.mark.Mid? || e.mark.End?;
    }
  }

  // ----- the invariant

  ghost predicate DataAgrees(items: seq<Item>, world: World, full: bool) {
    forall i :: 0 <= i < |items| && items[i].Seen? ==> SeenAgrees(items[i].data, world, full)
  }

  /** Of the paths found so far, those of objects have a row, wait for one, or will be looked
      at before the n-th mid mark is handled. */
  ghost predicate Complete(s: System, found: set<string>, n: nat, world: World) {
    found * world.Keys <= Contents(s.alert) + Ahead(Front(s), n)
  }

  ghost predicate Settled(s: System, world: World, full: bool) {
    s.alert.inScan || End in Marks(Stream(s)) ==> RowsAgree(s.alert, world, full)
  }

  /** What is kept besides the invariant of the pipeline. `toTake` mid marks have still to
      leave the scan queue before the walk finds paths that do not count any more. */
  ghost predicate Good(s: System, found: set<string>, n: nat, toTake: nat, world: World, full: bool) {
    && DataAgrees(s.dataQ, world, full) && WaitingAgree(s.alert.insertSet, world, full)
    && Settled(s, world, full) && Complete(s, found, n, world)
    && (toTake > 0 ==> n == toTake + Mids(Front(s)))
  }

  /** A step that leaves the alert task alone and puts nothing off. */
  lemma CalmStep(s: System, s': System, found: set<string>, n: nat, toTake: nat, toTake': nat, world: World, full: bool)
    requires Good(s, found, n, toTake, world, full)
    requires s'.alert.table == s.alert.table && s'.alert.insertSet == s.alert.insertSet
    requires s'.alert.inScan == s.alert.inScan && s'.alert.updateQueue == s.alert.updateQueue
    requires DataAgrees(s'.dataQ, world, full) && Ahead(Front(s), n) <= Ahead(Front(s'), n)
    requires End in Marks(Stream(s')) ==> End in Marks(Stream(s))
    requires toTake' > 0 ==> toTake > 0 && toTake + Mids(Front(s)) == toTake' + Mids(Front(s'))
    ensures Good(s', found, n, toTake', world, full)
  {
    hide Ahead, Mids, Front, Stream, Marks, Paths, RowAgrees, DataAgrees;
  }

  lemma MoreData(items: seq<Item>, item: Item, world: World, full: bool)
    requires DataAgrees(items, world, full) && (item.Seen? ==> SeenAgrees(item.data, world, full))
    ensures DataAgrees(items + [item], world, full)
  {
  }

  lemma SameFront(s: System, s': System)
    requires Stream(s) == Stream(s') && s.alert.events == s'.alert.events
    ensures Front(s) == Front(s')
  {
    var f, f', e := Front(s), Front(s'), s.alert.events;
    assert f + e == f' + e;
    assert |f| == |f'| && f == (f + e)[..|f|] && f' == (f' + e)[..|f|];
  }

  /** What a quiet step does to the front, and which observations it adds. */
  lemma QuietFront(s: System, a: Action, blockSize: nat, n: nat, world: World, full: bool)
    requires Enabled(s, a) && Quiet(s, a) && ActionAgrees(a, world, full) && DataAgrees(s.dataQ, world, full)
    requires NoEnds(Marks(s.alert.events)) == []
    ensures var s' := Do(s, a, blockSize);
      && Ahead(Front(s), n) <= Ahead(Front(s'), n) && Mids(Front(s')) == Mids(Front(s))
      && DataAgrees(s'.dataQ, world, full)
  {
    hide Ahead, Mids, Marks, DataAgrees, AsEvents, Step, NoEnds, Agrees;
    var s' := Do(s, a, blockSize);
    if a.AlertPush? {
      assert Front(s') == Front(s) + [s.alert.events[0]];
      AheadGrows(Front(s), [s.alert.events[0]], n);
      PushedIsNoMid(s.alert.events);
    } else if a.EventTake? || a.EventPut? {
      MovesInTheStream(s, a, blockSize);
      SameFront(s, s');
      if a.EventPut? {
        var e := s.held.value;
        MoreData(s.dataQ, if e.Marker? then Special(e.mark) else Seen(a.seen, e.force), world, full);
      }
    } else if a.ScanEmit? {
      assert Front(s') == Front(s) + [Path(a.path, true)];
      AheadGrows(Front(s), [Path(a.path, true)], n);
      OnePath(a.path);
    } else if a.Realtime? {
      RealtimeFront(s, a, blockSize, n);
      MoreData(s.dataQ, Seen(a.seen, false), world, full);
    } else {
      assert Front(s') == Front(s);
    }
  }

  lemma PushedIsNoMid(events: seq<Event>)
    requires events != [] && NoEnds(Marks(events)) == []
    ensures Mids([events[0]]) == 0
  {
    if events[0].Marker? {
      NoEndsHead(events[0].mark, Marks(events[1..]));
    }
  }

  lemma OnePath(p: string)
    ensures Mids([Path(p, true)]) == 0
  {
  }

  lemma RealtimeFront(s: System, a: Action, blockSize: nat, n: nat)
    requires Enabled(s, a) && a.Realtime?
    ensures var s' := Do(s, a, blockSize);
      Ahead(Front(s), n) <= Ahead(Front(s'), n) && Mids(Front(s')) == Mids(Front(s))
  {
    hide Ahead, Mids, AsEvents;
    var s', item := Do(s, a, blockSize), Seen(a.seen, false);
    var front, e, back := AsEvents(s.dataQ), AsEvent(item), Held(s.held) + s.eventQ;
    StreamConcat(s.dataQ, [item]);
    OneEvent(item);
    assert Front(s) == front + back && Front(s') == front + [e] + back;
    AheadInsert(front, e, back, n);
  }

  lemma QuietIsGood(s: System, a: Action, blockSize: nat, found: set<string>,
      n: nat, toTake: nat, world: World, full: bool)
    requires Good(s, found, n, toTake, world, full) && Sound(s)
    requires Enabled(s, a) && Quiet(s, a) && ActionAgrees(a, world, full)
    ensures Good(Do(s, a, blockSize), found + Finds(a, toTake), n, ToTake(s, a, toTake), world, full)
  {
    hide Ahead, Mids, Front, Stream, Marks, DataAgrees, RowsAgree,
      WaitingAgree, Consistent, Named, Covered, NoEnds, TakeTurns, Contents;
    var s' := Do(s, a, blockSize);
    QuietMarks(s, a, blockSize);
    QuietFront(s, a, blockSize, n, world, full);
    CalmStep(s, s', found, n, toTake, toTake, world, full);
    if a.ScanEmit? && toTake > 0 {
      EmittedIsAhead(s, a, blockSize, n);
    }
  }

  lemma EmittedIsAhead(s: System, a: Action, blockSize: nat, n: nat)
    requires Enabled(s, a) && a.ScanEmit? && n > Mids(Front(s))
    ensures a.path in Ahead(Front(Do(s, a, blockSize)), n)
  {
    hide Ahead, Mids, AsEvents;
    assert Front(Do(s, a, blockSize)) == Front(s) + [Path(a.path, true)];
    AheadLast(Front(s), a.path, true, n);
  }

  lemma StartingIsGood(s: System, a: Action, blockSize: nat,
      found: set<string>, n: nat, toTake: nat, world: World, full: bool)
    requires Good(s, found, n, toTake, world, full) && Enabled(s, a) && a.StartScan?
    ensures Good(Do(s, a, blockSize), found, n, toTake, world, full)
  {
    hide Ahead, Mids, Marks, DataAgrees, AsEvents, Jobs;
    SameStream(s, Do(s, a, blockSize));
    CalmStep(s, Do(s, a, blockSize), found, n, toTake, toTake, world, full);
  }

  lemma MarkingIsGood(s: System, a: Action, blockSize: nat, found: set<string>,
      n: nat, toTake: nat, world: World, full: bool)
    requires Good(s, found, n, toTake, world, full) && Sound(s) && Enabled(s, a) && a.ScanTake? && s.scanQ[0].JobMark?
    ensures Good(Do(s, a, blockSize), found, n, ToTake(s, a, toTake), world, full)
  {
    hide Ahead, Mids, Marks, DataAgrees, AsEvents, Consistent, Named, Covered, Turns, JobMarks, Settled, Complete;
    var s', m := Do(s, a, blockSize), s.scanQ[0].mark;
    MarkMoves(s, a, blockSize);
    TurnsOfMove(Marks(Front(s)), m, JobMarks(s'.scanQ), Marks(s.alert.events), s.alert.inScan);
    assert Front(s') == Front(s) + [Marker(m)];
    AheadGrows(Front(s), [Marker(m)], n);
    assert Mids([Marker(m)]) == if m == Mid then 1 else 0 by {
      AheadHead(Marker(m), [], n);
      assert [Marker(m)] + [] == [Marker(m)];
    }
    CalmStep(s, s', found, n, toTake, ToTake(s, a, toTake), world, full);
  }

  /** Looking at a path leaves every object among the known paths. */
  lemma SeenIsComplete(s: Alerter, item: Item, names: seq<string>, blockSize: nat, world: World, full: bool, p: string)
    requires Consistent(s) && item.Seen? && SeenAgrees(item.data, world, full) && p in world && "" !in world
    requires p in Contents(s) || AsEvent(item) == Path(p, item.force)
    ensures p in Contents(Step(s, item, names, blockSize))
  {
    hide Step, Contents, Consistent, Pictures;
    if item.data.Some? {
      SeenContents(s, item.data.value, item.force, names, blockSize);
    } else {
      OtherContents(s, item, names, blockSize);
    }
  }

  lemma NextInFront(s: System)
    requires s.dataQ != []
    ensures Front(s) == [AsEvent(s.dataQ[0])] + Rest(s)
  {
    assert s.dataQ == [s.dataQ[0]] + s.dataQ[1..];
    StreamConcat([s.dataQ[0]], s.dataQ[1..]);
    OneEvent(s.dataQ[0]);
  }

  /** The number of mid marks that are left after a step of the alert task. */
  function ToHandle(s: System, a: Action, n: nat): nat { if n > 0 && HandlesMid(s, a) then n - 1 else n }

  lemma HandledData(s: System, a: Action, blockSize: nat, world: World, full: bool)
    requires Enabled(s, a) && a.AlertTake? && DataAgrees(s.dataQ, world, full)
    ensures DataAgrees(Do(s, a, blockSize).dataQ, world, full)
    ensures s.dataQ[0].Seen? ==> SeenAgrees(s.dataQ[0].data, world, full)
  {
    hide Step, SeenAgrees;
  }

  lemma SeeingIsGood(s: System, a: Action, blockSize: nat, found: set<string>,
      n: nat, toTake: nat, world: World, full: bool)
    requires Good(s, found, n, toTake, world, full) && Sound(s) && "" !in world
    requires Enabled(s, a) && a.AlertTake? && s.dataQ[0].Seen?
    ensures Good(Do(s, a, blockSize), found, n, toTake, world, full)
  {
    hide Step, AsEvents, Marks, Ordered, Covered, Ahead, Mids, Contents, RowsAgree, WaitingAgree, Named, Consistent,
      DataAgrees, Agrees;
    var s', item := Do(s, a, blockSize), s.dataQ[0];
    HandledData(s, a, blockSize, world, full);
    NextInTheStream(s);
    NextInFront(s);
    SeenShares(s.alert, item, a.names, blockSize);
    StepAgrees(s.alert, item, a.names, blockSize, world, full);
    AheadHead(AsEvent(item), Rest(s), n);
    assert Stream(s') == Rest(s) && Front(s') == Rest(s);
    forall p | p in found * world.Keys
      ensures p in Contents(s'.alert) + Ahead(Front(s'), n)
    {
      if p !in Ahead(Rest(s), n) {
        SeenIsComplete(s.alert, item, a.names, blockSize, world, full, p);
      }
    }
  }

  /** A mark changes no contents; behind a mid mark one mid mark fewer is waited for. */
  lemma MarkIsComplete(s: System, a: Action, blockSize: nat,
      found: set<string>, n: nat, toTake: nat, world: World, full: bool)
    requires Good(s, found, n, toTake, world, full) && Consistent(s.alert)
    requires Enabled(s, a) && a.AlertTake? && s.dataQ[0].Special?
    ensures var s' := Do(s, a, blockSize);
      && Complete(s', found, ToHandle(s, a, n), world)
      && (toTake > 0 ==> ToHandle(s, a, n) == toTake + Mids(Front(s')))
  {
    hide Step, Consistent, AsEvents, Marks, Ahead, Mids, Contents, Settled, DataAgrees, WaitingAgree;
    var item := s.dataQ[0];
    NextInFront(s);
    AheadHead(AsEvent(item), Rest(s), n);
    OtherContents(s.alert, item, a.names, blockSize);
    assert Front(Do(s, a, blockSize)) == Rest(s);
    assert item.mark == Start || item.mark == Mid || item.mark == End;
  }

  lemma MarkIsGood(s: System, a: Action, blockSize: nat, found: set<string>,
      n: nat, toTake: nat, world: World, full: bool)
    requires Good(s, found, n, toTake, world, full) && Sound(s)
    requires Enabled(s, a) && a.AlertTake? && s.dataQ[0].Special?
    ensures Good(Do(s, a, blockSize), found, ToHandle(s, a, n), toTake, world, full)
  {
    hide Consistent, AsEvents, Marks, Covered, RowsAgree, WaitingAgree,
      Named, Complete, Turns, FlushInserts, FlushUpdates, Unmarked, Phase2, DataAgrees, Mids, Front;
    var s', m := Do(s, a, blockSize), s.dataQ[0].mark;
    MarkIsComplete(s, a, blockSize, found, n, toTake, world, full);
    HandledData(s, a, blockSize, world, full);
    NextInTheStream(s);
    TurnsAtHead(m, Marks(Rest(s)), JobMarks(s.scanQ), Marks(s.alert.events), s.alert.inScan);
    StepAgrees(s.alert, s.dataQ[0], a.names, blockSize, world, full);
    if m == End {
      assert Stream(s') == Rest(s) && s'.alert.inScan == s.alert.inScan;
      assert ([End] + Marks(Rest(s)))[0] == End;
    }
  }

  lemma DoIsGood(s: System, a: Action, blockSize: nat, found: set<string>,
      n: nat, toTake: nat, world: World, full: bool)
    requires Good(s, found, n, toTake, world, full) && Sound(s) && "" !in world && Enabled(s, a)
    requires ActionAgrees(a, world, full)
    ensures Good(Do(s, a, blockSize), found + Finds(a, toTake), ToHandle(s, a, n), ToTake(s, a, toTake), world, full)
  {
    hide Sound, Do, Good, ActionAgrees, Lists, Unscanned;
    assert !a.ScanEmit? ==> found + Finds(a, toTake) == found;
    if Quiet(s, a) {
      QuietIsGood(s, a, blockSize, found, n, toTake, world, full);
    } else if a.StartScan? {
      StartingIsGood(s, a, blockSize, found, n, toTake, world, full);
    } else if a.ScanTake? {
      MarkingIsGood(s, a, blockSize, found, n, toTake, world, full);
    } else {
      NoKill(s);
      if s.dataQ[0].Seen? {
        SeeingIsGood(s, a, blockSize, found, n, toTake, world, full);
      } else {
        MarkIsGood(s, a, blockSize, found, n, toTake, world, full);
      }
    }
  }

  // ----- whole runs

  lemma {:induction false} RunIsGood(s: System, actions: seq<Action>, blockSize: nat,
      found: set<string>, n: nat, toTake: nat, world: World, full: bool)
    requires Good(s, found, n, toTake, world, full) && Sound(s) && "" !in world
    requires Runs(s, actions, blockSize) && InTurn(s, actions, blockSize) && AllAgree(actions, world, full)
    requires n == MidsHandled(s, actions, blockSize)
    ensures Good(After(s, actions, blockSize), found + Found(s, actions, toTake, blockSize), 0,
                 ToTakeAfter(s, actions, toTake, blockSize), world, full)
    ensures Sound(After(s, actions, blockSize))
    decreases |actions|
  {
    hide Good, Sound, Do, ActionAgrees, Finds, Enabled, ToTake, StartsInTurn, HandlesMid;
    if actions == [] {
      assert found + {} == found;
    } else {
      var a, s' := actions[0], Do(s, actions[0], blockSize);
      DoKeeps(s, a, blockSize);
      DoIsGood(s, a, blockSize, found, n, toTake, world, full);
      RunIsGood(s', actions[1..], blockSize, found + Finds(a, toTake),
        ToHandle(s, a, n), ToTake(s, a, toTake), world, full);
      assert found + Finds(a, toTake) + Found(s', actions[1..], ToTake(s, a, toTake), blockSize)
          == found + Found(s, actions, toTake, blockSize);
    }
  }

  ghost function ToTakeAfter(s: System, actions: seq<Action>, n: nat, blockSize: nat): nat
    requires Runs(s, actions, blockSize)
    decreases |actions|
  {
    if actions == [] then n
    else ToTakeAfter(Do(s, actions[0], blockSize), actions[1..], ToTake(s, actions[0], n), blockSize)
  }

  lemma InitiallyGood(t: Table, n: nat, world: World, full: bool)
    ensures Good(Initial(t), t.Keys, n, n, world, full)
  {
    assert Stream(Initial(t)) == [] && Front(Initial(t)) == [] && Paths([]) == {};
  }

  lemma EndIsComplete(s: System, found: set<string>, toTake: nat, world: World, full: bool)
    requires Sound(s) && Good(s, found, 0, toTake, world, full) && EndIsNext(s) && s.alert.events == []
    ensures found * world.Keys <= s.alert.table.Keys
    ensures forall p :: p in s.alert.table ==> RowAgrees(p, s.alert.table[p], world, full)
  {
    hide AsEvents, Deferred, Marks, Covered, Named, Turns, Unscanned, RowAgrees;
    EndCovers(s);
    NextInFront(s);
    NextInTheStream(s);
    AheadHead(Marker(End), Rest(s), 0);
    TurnsAtHead(End, Marks(Rest(s)), JobMarks(s.scanQ), Marks(s.alert.events), s.alert.inScan);
    assert ([End] + Marks(Rest(s)))[0] == End && Paths([]) == {};
    NoneUnscanned(s.alert.table);
  }

  lemma NoneUnscanned(t: Table)
    requires Unscanned(t) == {}
    ensures forall p :: p in t ==> t[p].scanned
  {
    forall p | p in t
      ensures t[p].scanned
    {
      assert p !in Unscanned(t);
    }
  }

  /** For every interleaving in which the alert task handles no start mark out of turn and
      every observation agrees with the same objects: when the end of a scan is handled, every
      row is of an object that is there and does not differ from it, in its content too if all
      observations looked at it; and every object has a row that was listed at the start, or
      that the walk found before the mid mark of this scan left the scan queue. */
  lemma ScanIsComplete(t: Table, actions: seq<Action>, blockSize: nat, world: World, full: bool)
    requires "" !in t && Runs(Initial(t), actions, blockSize) && InTurn(Initial(t), actions, blockSize)
    requires "" !in world && AllAgree(actions, world, full)
    ensures var s, scans := After(Initial(t), actions, blockSize), MidsHandled(Initial(t), actions, blockSize);
      EndIsNext(s) && s.alert.events == [] ==>
        && (forall p :: p in s.alert.table ==> RowAgrees(p, s.alert.table[p], world, full))
        && (t.Keys + Found(Initial(t), actions, scans, blockSize)) * world.Keys <= s.alert.table.Keys
  {
    hide Good, Do, Sound, RowAgrees;
    var s0, n := Initial(t), MidsHandled(Initial(t), actions, blockSize);
    InitiallySound(t);
    InitiallyGood(t, n, world, full);
    RunIsGood(s0, actions, blockSize, t.Keys, n, n, world, full);
    var s := After(s0, actions, blockSize);
    if EndIsNext(s) && s.alert.events == [] {
      EndIsComplete(s, t.Keys + Found(s0, actions, n, blockSize), ToTakeAfter(s0, actions, n, blockSize), world, full);
    }
  }
}
