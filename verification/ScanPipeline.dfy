/** The threads of the disk scanner and the queues between them, one step of one thread at
    a time. Shutdown and failing threads are not part of this model. */
module ScanPipeline {
  import opened Optional
  import opened Diskscan

  datatype Job = Dir(path: string) | JobMark(mark: Mark)

  /** `walking`: the scan task is inside a directory; `held`: the event task has taken an
      event and not yet passed it on; `alert.events`: what the alert task still has to put
      into the event queue before it takes the next element. */
  datatype System = System(scanQ: seq<Job>, walking: bool, eventQ: seq<Event>,
    held: Option<Event>, dataQ: seq<Item>, alert: Alerter)

  datatype Action =
    /** The main thread starts a scan of the watched directories. */
    | StartScan(dirs: seq<string>)
    /** A watch task found a new directory. */
    | WatchDir(dir: string)
    | ScanTake
    | ScanEmit(path: string)
    | ScanDone
    | EventTake
    /** The event task looks at the path and passes on what it saw. */
    | EventPut(seen: Option<FileData>)
    /** The realtime task passes on what it saw. */
    | Realtime(seen: Option<FileData>)
    /** The alert task handles one element; `names` is what phase 2 selects. */
    | AlertTake(names: seq<string>)
    | AlertPush

  function Initial(t: Table): System {
    System([], false, [], None, [], Alerter(t, false, [], [], [], [], false, false))
  }

  /** Looking at a path gives data about that path; the empty path gives none. */
  predicate Observes(path: string, seen: Option<FileData>) {
    if path == "" then seen.None? else seen.Some? && seen.value.path == path
  }

  ghost predicate Enabled(s: System, a: Action) {
    match a
    case StartScan(_) => true
    case WatchDir(_) => true
    case ScanTake => !s.walking && s.scanQ != []
    case ScanEmit(_) => s.walking
    case ScanDone => s.walking
    case EventTake => s.held.None? && s.eventQ != []
    case EventPut(seen) => s.held.Some? && (s.held.value.Path? ==> Observes(s.held.value.path, seen))
    case Realtime(seen) => seen.Some? ==> seen.value.path != ""
    case AlertTake(names) =>
      s.dataQ != [] && s.alert.events == [] && (s.dataQ[0] == Special(Mid) ==> Lists(names, Unscanned(s.alert.table)))
    case AlertPush => s.alert.events != []
  }

  function Jobs(dirs: seq<string>): seq<Job> {
    if dirs == [] then [JobMark(Mid)] else [Dir(dirs[0])] + Jobs(dirs[1..])
  }

  /** What one step does. Nothing stops the main thread from starting a scan while another
      one is still running. */
  function Do(s: System, a: Action, blockSize: nat): System
    requires Enabled(s, a)
  {
    match a
    case StartScan(dirs) =>
      s.(scanQ := s.scanQ + [JobMark(Start)] + Jobs(dirs), alert := s.alert.(scanIsRunning := true))
    case WatchDir(dir) => s.(scanQ := s.scanQ + [Dir(dir)])
    case ScanTake =>
      var rest := s.(scanQ := s.scanQ[1..]);
      if s.scanQ[0].JobMark? then rest.(eventQ := s.eventQ + [Marker(s.scanQ[0].mark)])
      else rest.(walking := s.scanQ[0].path != "")
    case ScanEmit(path) => s.(eventQ := s.eventQ + [Path(path, true)])
    case ScanDone => s.(walking := false)
    case EventTake => s.(held := Some(s.eventQ[0]), eventQ := s.eventQ[1..])
    case EventPut(seen) =>
      var e := s.held.value;
      s.(held := None, dataQ := s.dataQ + [if e.Marker? then Special(e.mark) else Seen(seen, e.force)])
    case Realtime(seen) => s.(dataQ := s.dataQ + [Seen(seen, false)])
    case AlertTake(names) => s.(dataQ := s.dataQ[1..], alert := Step(s.alert, s.dataQ[0], names, blockSize))
    case AlertPush => s.(eventQ := s.eventQ + [s.alert.events[0]], alert := s.alert.(events := s.alert.events[1..]))
  }

  /** A run: every action is possible when its turn comes. */
  ghost predicate Runs(s: System, actions: seq<Action>, blockSize: nat)
    decreases |actions|
  {
    actions == [] || (Enabled(s, actions[0]) && Runs(Do(s, actions[0], blockSize), actions[1..], blockSize))
  }

  ghost function After(s: System, actions: seq<Action>, blockSize: nat): System
    requires Runs(s, actions, blockSize)
    decreases |actions|
  {
    if actions == [] then s else After(Do(s, actions[0], blockSize), actions[1..], blockSize)
  }

  /** Scans are only started while none is running. */
  ghost predicate OneAtATime(s: System, actions: seq<Action>, blockSize: nat)
    requires Runs(s, actions, blockSize)
    decreases |actions|
  {
    actions == [] ||
    ((actions[0].StartScan? ==> !s.alert.scanIsRunning)
     && OneAtATime(Do(s, actions[0], blockSize), actions[1..], blockSize))
  }

  /** The alert task is about to handle the end of a scan. */
  predicate EndIsNext(s: System) { s.dataQ != [] && s.dataQ[0] == Special(End) }

  // ----- the stream the alert task will see

  function AsEvent(item: Item): Event {
    match item
    case Kill => Path("", false)
    case Special(m) => Marker(m)
    case Seen(seen, force) => Path(if seen.Some? then seen.value.path else "", force)
  }

  function AsEvents(items: seq<Item>): seq<Event> { seq(|items|, i requires 0 <= i < |items| => AsEvent(items[i])) }

  function Held(e: Option<Event>): seq<Event> { if e.Some? then [e.value] else [] }

  /** Everything queued in front of the alert task, in order. */
  function Stream(s: System): seq<Event> { AsEvents(s.dataQ) + Held(s.held) + s.eventQ + s.alert.events }

  function Marks(events: seq<Event>): seq<Mark> {
    if events == [] then []
    else if events[0].Marker? then [events[0].mark] + Marks(events[1..])
    else Marks(events[1..])
  }

  function JobMarks(jobs: seq<Job>): seq<Mark> {
    if jobs == [] then []
    else if jobs[0].JobMark? then [jobs[0].mark] + JobMarks(jobs[1..])
    else JobMarks(jobs[1..])
  }

  /** The paths that will be settled before the scan ends. */
  function Forced(events: seq<Event>): set<string> {
    if events == [] || events[0] == Marker(End) then {}
    else if events[0].Path? && events[0].force then {events[0].path} + Forced(events[1..])
    else Forced(events[1..])
  }

  lemma {:induction false} MarksConcat(a: seq<Event>, b: seq<Event>)
    ensures Marks(a + b) == Marks(a) + Marks(b)
  {
    if a == [] {
      assert a + b == b;
    } else {
      assert (a + b)[1..] == a[1..] + b && (a + b)[0] == a[0];
      MarksConcat(a[1..], b);
    }
  }

  lemma {:induction false} JobMarksConcat(a: seq<Job>, b: seq<Job>)
    ensures JobMarks(a + b) == JobMarks(a) + JobMarks(b)
  {
    if a == [] {
      assert a + b == b;
    } else {
      assert (a + b)[1..] == a[1..] + b && (a + b)[0] == a[0];
      JobMarksConcat(a[1..], b);
    }
  }

  /** What is queued behind the end of the scan does not count. */
  lemma {:induction false} ForcedConcat(a: seq<Event>, b: seq<Event>)
    ensures Forced(a + b) == if End in Marks(a) then Forced(a) else Forced(a) + Forced(b)
  {
    if a == [] {
      assert a + b == b;
    } else {
      assert (a + b)[1..] == a[1..] + b && (a + b)[0] == a[0];
      ForcedConcat(a[1..], b);
    }
  }

  /** An event that is slipped in settles no fewer paths. */
  lemma {:induction false} ForcedInsert(a: seq<Event>, e: Event, b: seq<Event>)
    requires e != Marker(End)
    ensures Forced(a + b) <= Forced(a + [e] + b)
  {
    if a == [] {
      assert a + b == b && (a + [e] + b)[1..] == b && (a + [e] + b)[0] == e;
    } else {
      assert (a + b)[1..] == a[1..] + b && (a + b)[0] == a[0];
      assert (a + [e] + b)[1..] == a[1..] + [e] + b && (a + [e] + b)[0] == a[0];
      ForcedInsert(a[1..], e, b);
    }
  }

  lemma {:induction false} MarksInsert(a: seq<Event>, e: Event, b: seq<Event>)
    requires e.Path?
    ensures Marks(a + [e] + b) == Marks(a + b)
  {
    if a == [] {
      assert a + b == b && (a + [e] + b)[1..] == b && (a + [e] + b)[0] == e;
    } else {
      assert (a + b)[1..] == a[1..] + b && (a + b)[0] == a[0];
      assert (a + [e] + b)[1..] == a[1..] + [e] + b && (a + [e] + b)[0] == a[0];
      MarksInsert(a[1..], e, b);
    }
  }

  lemma ForcedHead(e: Event, rest: seq<Event>)
    ensures Forced([e] + rest)
         == if e == Marker(End) then {} else if e.Path? && e.force then {e.path} + Forced(rest) else Forced(rest)
  {
    assert ([e] + rest)[1..] == rest;
  }

  lemma {:induction false} Phase2Marks(names: seq<string>)
    ensures Marks(Phase2(names)) == [End]
    ensures forall n :: n in names ==> n in Forced(Phase2(names))
  {
    if names == [] {
      assert Phase2(names)[1..] == [];
    } else {
      Phase2Marks(names[1..]);
      var e, rest := Path(names[0], true), Phase2(names[1..]);
      assert Phase2(names) == [e] + rest;
      ForcedHead(e, rest);
      assert ([e] + rest)[1..] == rest;
    }
  }

  lemma {:induction false} JobsMarks(dirs: seq<string>)
    ensures JobMarks(Jobs(dirs)) == [Mid]
  {
    if dirs == [] {
      assert Jobs(dirs)[1..] == [];
    } else {
      JobsMarks(dirs[1..]);
      assert Jobs(dirs)[1..] == Jobs(dirs[1..]);
    }
  }

  // ----- the invariant

  /** No observation is of the empty path, and no row is. */
  ghost predicate Named(s: System) {
    && "" !in s.alert.table && "" !in Paths(s.alert.insertSet)
    && forall i :: 0 <= i < |s.dataQ| ==>
         !s.dataQ[i].Kill? && (s.dataQ[i].Seen? && s.dataQ[i].data.Some? ==> s.dataQ[i].data.value.path != "")
  }

  /** The start and mid marks among some marks. */
  function NoEnds(marks: seq<Mark>): seq<Mark> {
    if marks == [] then [] else (if marks[0] == End then [] else [marks[0]]) + NoEnds(marks[1..])
  }

  /** Every start mark is followed by its mid mark; a mid mark comes first during a walk. */
  predicate TakeTurns(marks: seq<Mark>, inScan: bool) {
    if marks == [] then !inScan else marks[0] == (if inScan then Mid else Start) && TakeTurns(marks[1..], !inScan)
  }

  /** Any number of scans may be on their way; no end mark is pending during a walk, and the
      alert task pushes no other mark. */
  ghost predicate Turns(inStream: seq<Mark>, inJobs: seq<Mark>, toPush: seq<Mark>, inScan: bool) {
    && TakeTurns(NoEnds(inStream) + inJobs, inScan)
    && (inScan ==> End !in inStream)
    && NoEnds(toPush) == []
  }

  ghost predicate Ordered(s: System) {
    Turns(Marks(Stream(s)), JobMarks(s.scanQ), Marks(s.alert.events), s.alert.inScan)
  }

  /** While an end mark is pending, every row that is still unmarked is queued in front of it. */
  ghost predicate Covered(s: System) {
    End in Marks(Stream(s)) ==> Unscanned(s.alert.table) <= Forced(Stream(s))
  }

  ghost predicate Sound(s: System) { Consistent(s.alert) && Named(s) && Ordered(s) && Covered(s) }

  lemma {:induction false} NoEndsConcat(a: seq<Mark>, b: seq<Mark>)
    ensures NoEnds(a + b) == NoEnds(a) + NoEnds(b)
  {
    if a == [] {
      assert a + b == b;
    } else {
      assert (a + b)[1..] == a[1..] + b && (a + b)[0] == a[0];
      NoEndsConcat(a[1..], b);
    }
  }

  lemma NoEndsHead(m: Mark, rest: seq<Mark>)
    ensures NoEnds([m] + rest) == (if m == End then [] else [m]) + NoEnds(rest)
  {
    assert ([m] + rest)[1..] == rest;
  }

  lemma {:induction false} OneMoreScan(marks: seq<Mark>, inScan: bool)
    requires TakeTurns(marks, inScan)
    ensures TakeTurns(marks + [Start, Mid], inScan)
  {
    if marks == [] {
      assert marks + [Start, Mid] == [Start, Mid] && [Start, Mid][1..] == [Mid] && [Mid][1..] == [];
    } else {
      assert (marks + [Start, Mid])[1..] == marks[1..] + [Start, Mid];
      OneMoreScan(marks[1..], !inScan);
    }
  }

  lemma {:induction false} NoEndTakesATurn(a: seq<Mark>, m: Mark, b: seq<Mark>, inScan: bool)
    requires TakeTurns(a + ([m] + b), inScan)
    ensures m != End
  {
    var marks := a + ([m] + b);
    if a != [] {
      assert marks[1..] == a[1..] + ([m] + b);
      NoEndTakesATurn(a[1..], m, b, !inScan);
    }
  }

  /** The mark that leaves the scan queue goes in front of an end mark that is still to be pushed. */
  lemma TurnsOfMove(front: seq<Mark>, m: Mark, jobs: seq<Mark>, toPush: seq<Mark>, inScan: bool)
    requires Turns(front + toPush, [m] + jobs, toPush, inScan)
    ensures m != End && Turns(front + [m] + toPush, jobs, toPush, inScan)
    ensures End in front + [m] + toPush <==> End in front + toPush
  {
    NoEndsConcat(front, toPush);
    NoEndsConcat(front + [m], toPush);
    NoEndsConcat(front, [m]);
    NoEndsHead(m, []);
    assert [m] + [] == [m] && NoEnds(front) + [] == NoEnds(front);
    NoEndTakesATurn(NoEnds(front), m, jobs, inScan);
    assert NoEnds(front) + [m] + [] + jobs == NoEnds(front) + ([m] + jobs);
  }

  lemma TurnsAtHead(m: Mark, rest: seq<Mark>, jobs: seq<Mark>, toPush: seq<Mark>, inScan: bool)
    requires Turns([m] + rest, jobs, toPush, inScan)
    ensures inScan <==> m == Mid
    ensures m == Start && End !in rest ==> Turns(rest, jobs, toPush, true)
    ensures m == Mid ==> End !in rest && Turns(rest + [End], jobs, [End], false)
    ensures m == End ==> Turns(rest, jobs, toPush, false)
  {
    hide TakeTurns;
    var marks := NoEnds([m] + rest) + jobs;
    NoEndsHead(m, rest);
    NoEndsHead(End, []);
    assert [End] + [] == [End];
    NoEndsConcat(rest, [End]);
    assert NoEnds(rest) + [] == NoEnds(rest);
    assert ([m] + rest)[0] == m && forall x :: x in rest ==> x in [m] + rest;
    if m != End {
      assert marks == [m] + (NoEnds(rest) + jobs);
      TurnTaken(m, NoEnds(rest) + jobs, inScan);
    } else {
      assert marks == NoEnds(rest) + jobs;
    }
  }

  lemma TurnTaken(m: Mark, rest: seq<Mark>, inScan: bool)
    requires TakeTurns([m] + rest, inScan)
    ensures m == (if inScan then Mid else Start) && TakeTurns(rest, !inScan)
  {
    assert ([m] + rest)[1..] == rest;
  }

  lemma StreamConcat(a: seq<Item>, b: seq<Item>)
    ensures AsEvents(a + b) == AsEvents(a) + AsEvents(b)
  {
  }

  /** Passing an event on does not change the stream. */
  lemma MovesInTheStream(s: System, a: Action, blockSize: nat)
    requires Enabled(s, a) && (a.EventTake? || a.EventPut? || a.AlertPush?)
    ensures Stream(Do(s, a, blockSize)) == Stream(s)
  {
    hide AsEvents, AsEvent, Step;
    if a.EventTake? {
      MovedHead(AsEvents(s.dataQ), s.eventQ, s.alert.events);
    } else if a.EventPut? {
      var e := s.held.value;
      var item := if e.Marker? then Special(e.mark) else Seen(a.seen, e.force);
      StreamConcat(s.dataQ, [item]);
      OneEvent(item);
      PutKeepsTheEvent(e, a.seen);
      assert AsEvents(s.dataQ) + [e] + [] == AsEvents(s.dataQ) + [e];
    } else {
      MovedHead(AsEvents(s.dataQ) + Held(s.held) + s.eventQ, s.alert.events, []);
    }
  }

  lemma MovedHead(a: seq<Event>, b: seq<Event>, c: seq<Event>)
    requires b != []
    ensures a + [b[0]] + b[1..] + c == a + [] + b + c
    ensures (a + [b[0]]) + b[1..] == a + b
  {
    assert b == [b[0]] + b[1..];
  }

  lemma PutKeepsTheEvent(e: Event, seen: Option<FileData>)
    requires e.Path? ==> Observes(e.path, seen)
    ensures AsEvent(if e.Marker? then Special(e.mark) else Seen(seen, e.force)) == e
  {
  }

  lemma OneEvent(item: Item)
    ensures AsEvents([item]) == [AsEvent(item)]
  {
  }

  /** Steps that leave the marks and the alert task's own state alone. */
  predicate Quiet(s: System, a: Action) {
    !a.StartScan? && !a.AlertTake? && (a.ScanTake? && s.scanQ != [] ==> s.scanQ[0].Dir?)
  }

  /** They change no mark, and settle no fewer paths. */
  lemma QuietMarks(s: System, a: Action, blockSize: nat)
    requires Enabled(s, a) && Quiet(s, a)
    ensures var s' := Do(s, a, blockSize);
      && Marks(Stream(s')) == Marks(Stream(s)) && JobMarks(s'.scanQ) == JobMarks(s.scanQ)
      && Forced(Stream(s)) <= Forced(Stream(s'))
      && s'.alert == s.alert.(events := s'.alert.events)
      && s'.alert.events == if a.AlertPush? then s.alert.events[1..] else s.alert.events
  {
    hide Marks, Forced, JobMarks, AsEvents, Stream;
    if a.EventTake? || a.EventPut? || a.AlertPush? {
      MovesInTheStream(s, a, blockSize);
    } else if a.ScanEmit? {
      EmittingMarks(s, a, blockSize);
    } else if a.Realtime? {
      RealtimeMarks(s, a, blockSize);
    } else {
      SameStream(s, Do(s, a, blockSize));
      WalkingMarks(s, a, blockSize);
    }
  }

  /** A walked path is slipped in front of what the alert task still has to push. */
  lemma EmittingMarks(s: System, a: Action, blockSize: nat)
    requires Enabled(s, a) && a.ScanEmit?
    ensures var s' := Do(s, a, blockSize);
      Marks(Stream(s')) == Marks(Stream(s)) && Forced(Stream(s)) <= Forced(Stream(s'))
  {
    hide Marks, Forced, AsEvents;
    var front, e := AsEvents(s.dataQ) + Held(s.held) + s.eventQ, Path(a.path, true);
    assert front + [e] + s.alert.events == AsEvents(s.dataQ) + Held(s.held) + (s.eventQ + [e]) + s.alert.events;
    MarksInsert(front, e, s.alert.events);
    ForcedInsert(front, e, s.alert.events);
  }

  /** A realtime observation is slipped in behind the other observations. */
  lemma RealtimeMarks(s: System, a: Action, blockSize: nat)
    requires Enabled(s, a) && a.Realtime?
    ensures var s' := Do(s, a, blockSize);
      Marks(Stream(s')) == Marks(Stream(s)) && Forced(Stream(s)) <= Forced(Stream(s'))
  {
    hide Marks, Forced, AsEvents;
    var item := Seen(a.seen, false);
    var front, e, back := AsEvents(s.dataQ), AsEvent(item), Held(s.held) + s.eventQ + s.alert.events;
    StreamConcat(s.dataQ, [item]);
    OneEvent(item);
    assert Stream(s) == front + back;
    assert Stream(Do(s, a, blockSize)) == front + [e] + back;
    MarksInsert(front, e, back);
    ForcedInsert(front, e, back);
  }

  /** The walk itself, and directories that a watch task adds. */
  lemma WalkingMarks(s: System, a: Action, blockSize: nat)
    requires Enabled(s, a) && (a.WatchDir? || a.ScanDone? || (a.ScanTake? && s.scanQ[0].Dir?))
    ensures JobMarks(Do(s, a, blockSize).scanQ) == JobMarks(s.scanQ)
  {
    if a.WatchDir? {
      JobMarksConcat(s.scanQ, [Dir(a.dir)]);
      assert JobMarks([Dir(a.dir)]) == [] && JobMarks(s.scanQ) + [] == JobMarks(s.scanQ);
    }
  }

  lemma SameStream(s: System, s': System)
    requires s.dataQ == s'.dataQ && s.held == s'.held && s.eventQ == s'.eventQ && s.alert.events == s'.alert.events
    ensures Stream(s) == Stream(s')
  {
  }

  lemma QuietKeeps(s: System, a: Action, blockSize: nat)
    requires Sound(s) && Enabled(s, a) && Quiet(s, a)
    ensures Sound(Do(s, a, blockSize))
  {
    hide Stream, Forced, Unscanned, JobMarks, Marks, Deferred, Paths, TakeTurns, NoEnds;
    QuietMarks(s, a, blockSize);
    QuietNames(s, a, blockSize);
    if a.AlertPush? {
      TailOfEnds(s.alert.events);
    }
  }

  lemma QuietNames(s: System, a: Action, blockSize: nat)
    requires Named(s) && Enabled(s, a) && Quiet(s, a)
    ensures Named(Do(s, a, blockSize))
  {
    hide Paths;
  }

  lemma TailOfEnds(events: seq<Event>)
    requires events != [] && NoEnds(Marks(events)) == []
    ensures NoEnds(Marks(events[1..])) == []
  {
    if events[0].Marker? {
      NoEndsHead(events[0].mark, Marks(events[1..]));
    }
  }

  lemma StartingKeeps(s: System, a: Action, blockSize: nat)
    requires Sound(s) && Enabled(s, a) && a.StartScan?
    ensures Sound(Do(s, a, blockSize))
  {
    hide Deferred, Stream, Forced, Unscanned, Step, Marks, Paths, JobMarks, Jobs, TakeTurns, NoEnds;
    ScanMarks(s.scanQ, a.dirs);
    SameStream(s, Do(s, a, blockSize));
    var marks := NoEnds(Marks(Stream(s)));
    OneMoreScan(marks + JobMarks(s.scanQ), s.alert.inScan);
    assert marks + (JobMarks(s.scanQ) + [Start, Mid]) == marks + JobMarks(s.scanQ) + [Start, Mid];
  }

  lemma ScanMarks(scanQ: seq<Job>, dirs: seq<string>)
    ensures JobMarks(scanQ + [JobMark(Start)] + Jobs(dirs)) == JobMarks(scanQ) + [Start, Mid]
  {
    JobMarksConcat(scanQ + [JobMark(Start)], Jobs(dirs));
    JobMarksConcat(scanQ, [JobMark(Start)]);
    JobsMarks(dirs);
    assert JobMarks([JobMark(Start)]) == [Start];
  }

  /** Everything queued in front of the alert task but what it still has to push itself. */
  function Front(s: System): seq<Event> { AsEvents(s.dataQ) + Held(s.held) + s.eventQ }

  /** A mark goes from the scan task into the event queue. */
  lemma MarkMoves(s: System, a: Action, blockSize: nat)
    requires Enabled(s, a) && a.ScanTake? && s.scanQ[0].JobMark?
    ensures var s', m := Do(s, a, blockSize), s.scanQ[0].mark;
      && Stream(s) == Front(s) + s.alert.events && Stream(s') == Front(s) + [Marker(m)] + s.alert.events
      && Marks(Stream(s)) == Marks(Front(s)) + Marks(s.alert.events)
      && Marks(Stream(s')) == Marks(Front(s)) + [m] + Marks(s.alert.events)
      && JobMarks(s.scanQ) == [m] + JobMarks(s'.scanQ)
  {
    hide AsEvents, Marks;
    var e := Marker(s.scanQ[0].mark);
    assert Stream(Do(s, a, blockSize)) == (Front(s) + [e]) + s.alert.events;
    MarksConcat(Front(s), s.alert.events);
    MarksConcat(Front(s) + [e], s.alert.events);
    MarksConcat(Front(s), [e]);
    OneMark(e);
  }

  lemma OneMark(e: Event)
    requires e.Marker?
    ensures Marks([e]) == [e.mark]
  {
  }

  lemma MarkingKeeps(s: System, a: Action, blockSize: nat)
    requires Sound(s) && Enabled(s, a) && a.ScanTake? && s.scanQ[0].JobMark?
    ensures Sound(Do(s, a, blockSize))
  {
    hide Consistent, Forced, Unscanned, Step, Paths, Marks, Stream, Front, JobMarks, Turns;
    var s', m := Do(s, a, blockSize), s.scanQ[0].mark;
    MarkMoves(s, a, blockSize);
    TurnsOfMove(Marks(Front(s)), m, JobMarks(s'.scanQ), Marks(s.alert.events), s.alert.inScan);
    ForcedInsert(Front(s), Marker(m), s.alert.events);
  }

  // ----- what the alert task handles

  /** The stream behind the next element. */
  function Rest(s: System): seq<Event>
    requires s.dataQ != []
  {
    AsEvents(s.dataQ[1..]) + Held(s.held) + s.eventQ
  }

  lemma NextInTheStream(s: System)
    requires s.dataQ != [] && s.alert.events == []
    ensures Stream(s) == [AsEvent(s.dataQ[0])] + Rest(s)
    ensures Marks(Stream(s)) == if s.dataQ[0].Special? then [s.dataQ[0].mark] + Marks(Rest(s)) else Marks(Rest(s))
  {
    assert s.dataQ == [s.dataQ[0]] + s.dataQ[1..];
    StreamConcat([s.dataQ[0]], s.dataQ[1..]);
    OneEvent(s.dataQ[0]);
    assert Stream(s)[1..] == Rest(s);
  }

  predicate Unnamed(s: Alerter) { "" in s.table || "" in Paths(s.insertSet) }

  lemma FlushNames(s: Alerter)
    requires Deferred(s.table, s.insertSet) && !Unnamed(s)
    ensures !Unnamed(FlushInserts(s))
  {
    hide Less, Sorted, Inserted;
    InsertedRows(s.table, s.insertSet);
  }

  lemma UnlistedNames(s: Alerter, fd: FileData, blockSize: nat)
    requires Consistent(s) && !Unnamed(s) && fd.path != "" && fd.path !in s.table
    ensures !Unnamed(Unlisted(s, fd, blockSize))
  {
    hide Less, Sorted, Put, FlushInserts, Paths, NewRow;
    PutPaths(s.insertSet, fd);
    PutSorted(s.insertSet, fd);
    FlushNames(s.(insertSet := Put(s.insertSet, fd)));
  }

  /** Rows and deferred rows get their paths from observations. */
  lemma StepNames(s: Alerter, item: Item, names: seq<string>, blockSize: nat)
    requires Consistent(s) && !Unnamed(s)
    requires item.Seen? && item.data.Some? ==> item.data.value.path != ""
    ensures !Unnamed(Step(s, item, names, blockSize))
  {
    hide Less, Sorted, Unlisted, FlushInserts, AllMarked, Paths, Phase2, Differs, UpdatedRow;
    if item == Special(Mid) {
      FlushNames(s.(events := s.events + Phase2(names), inScan := false));
    } else if item.Seen? && item.data.Some? && item.data.value.path !in s.table {
      UnlistedNames(s, item.data.value, blockSize);
    }
  }

  /** What the pipeline must know about one step of the alert task. */
  lemma HandledNamed(s: System, a: Action, blockSize: nat)
    requires Sound(s) && Enabled(s, a) && a.AlertTake?
    ensures Consistent(Do(s, a, blockSize).alert) && Named(Do(s, a, blockSize))
  {
    hide Step, Ordered, Covered, Consistent, Paths;
    assert !Unnamed(s.alert);
    StepNames(s.alert, s.dataQ[0], a.names, blockSize);
    StepKeeps(s.alert, s.dataQ[0], a.names, blockSize);
  }

  /** Only a mark changes what the alert task shares with the others. */
  lemma SeenShares(s: Alerter, item: Item, names: seq<string>, blockSize: nat)
    requires item.Seen?
    ensures var s' := Step(s, item, names, blockSize);
      s'.inScan == s.inScan && s'.scanIsRunning == s.scanIsRunning && s'.events == s.events
  {
    hide Put, Less, Differs, Marked;
  }

  lemma SeeingKeeps(s: System, a: Action, blockSize: nat)
    requires Sound(s) && Enabled(s, a) && a.AlertTake? && s.dataQ[0].Seen?
    ensures Sound(Do(s, a, blockSize))
  {
    hide Step, Consistent, AsEvents, Marks, JobMarks, Unscanned, Paths, TakeTurns, NoEnds;
    var s', item := Do(s, a, blockSize), s.dataQ[0];
    HandledNamed(s, a, blockSize);
    NextInTheStream(s);
    SeenShares(s.alert, item, a.names, blockSize);
    MarksStay(s.alert, item, a.names, blockSize);
    assert Stream(s') == Rest(s);
    if End in Marks(Stream(s')) {
      ForcedHead(AsEvent(item), Rest(s));
      UnscannedNamed(s'.alert.table);
      if item.force && item.data.Some? {
        ForcedIsSettled(s.alert, item.data.value, a.names, blockSize);
      }
    }
  }

  lemma UnscannedNamed(t: Table)
    requires "" !in t
    ensures "" !in Unscanned(t)
  {
  }

  lemma StartHandledKeeps(s: System, a: Action, blockSize: nat)
    requires Sound(s) && Enabled(s, a) && a.AlertTake? && s.dataQ[0] == Special(Start) && End !in Marks(Stream(s))
    ensures Sound(Do(s, a, blockSize))
  {
    hide Consistent, AsEvents, Marks, JobMarks, Unscanned, Paths, Forced, Turns;
    HandledNamed(s, a, blockSize);
    NextInTheStream(s);
    var marks := Marks(Rest(s));
    assert forall m :: m in marks ==> m in [Start] + marks;
    TurnsAtHead(Start, marks, JobMarks(s.scanQ), Marks(s.alert.events), s.alert.inScan);
    assert Stream(Do(s, a, blockSize)) == Rest(s);
  }

  lemma EndHandledKeeps(s: System, a: Action, blockSize: nat)
    requires Sound(s) && Enabled(s, a) && a.AlertTake? && s.dataQ[0] == Special(End)
    ensures Sound(Do(s, a, blockSize))
  {
    hide Consistent, AsEvents, Marks, JobMarks, Paths, Forced, Turns, Unscanned;
    HandledNamed(s, a, blockSize);
    EndCovers(s);
    NextInTheStream(s);
    TurnsAtHead(End, Marks(Rest(s)), JobMarks(s.scanQ), Marks(s.alert.events), s.alert.inScan);
    assert Stream(Do(s, a, blockSize)) == Rest(s);
  }

  /** When the end mark is next, nothing is queued in front of it any more. */
  lemma EndCovers(s: System)
    requires Sound(s) && EndIsNext(s) && s.alert.events == []
    ensures Unscanned(s.alert.table) == {}
  {
    hide Consistent, AsEvents, Unscanned, Ordered;
    NextInTheStream(s);
    assert ([End] + Marks(Rest(s)))[0] == End;
    ForcedHead(Marker(End), Rest(s));
  }

  /** At the mid mark every unmarked row is queued, then the end mark. */
  lemma MidHandledKeeps(s: System, a: Action, blockSize: nat)
    requires Sound(s) && Enabled(s, a) && a.AlertTake? && s.dataQ[0] == Special(Mid)
    ensures Sound(Do(s, a, blockSize))
  {
    hide Consistent, AsEvents, Marks, JobMarks, Paths, Forced, Inserted, AllMarked, NewAlerts, Unscanned, Turns;
    var s' := Do(s, a, blockSize);
    HandledNamed(s, a, blockSize);
    NextInTheStream(s);
    TurnsAtHead(Mid, Marks(Rest(s)), JobMarks(s.scanQ), Marks(s.alert.events), s.alert.inScan);
    Phase2Marks(a.names);
    assert s'.alert.events == Phase2(a.names);
    assert Stream(s') == Rest(s) + Phase2(a.names);
    MarksConcat(Rest(s), Phase2(a.names));
    ForcedConcat(Rest(s), Phase2(a.names));
    MarksStay(s.alert, Special(Mid), a.names, blockSize);
  }

  /** The alert task does not handle the start of a scan while the end of an earlier one is
      still to come. */
  ghost predicate StartsInTurn(s: System, a: Action) {
    a.AlertTake? && s.dataQ != [] && s.dataQ[0] == Special(Start) ==> End !in Marks(Stream(s))
  }

  /** Every step of any thread keeps the invariant, as long as the alert task handles no start
      mark out of turn; the main thread may start scans whenever it likes. */
  lemma DoKeeps(s: System, a: Action, blockSize: nat)
    requires Sound(s) && Enabled(s, a) && StartsInTurn(s, a)
    ensures Sound(Do(s, a, blockSize))
  {
    hide Sound, Do, Stream, Unscanned, Lists, Marks;
    if Quiet(s, a) {
      QuietKeeps(s, a, blockSize);
    } else if a.StartScan? {
      StartingKeeps(s, a, blockSize);
    } else if a.ScanTake? {
      MarkingKeeps(s, a, blockSize);
    } else {
      NoKill(s);
      match s.dataQ[0]
      case Seen(_, _) => SeeingKeeps(s, a, blockSize);
      case Special(Start) => StartHandledKeeps(s, a, blockSize);
      case Special(Mid) => MidHandledKeeps(s, a, blockSize);
      case Special(End) => EndHandledKeeps(s, a, blockSize);
      case Kill => assert false;
    }
  }

  lemma NoKill(s: System)
    requires Sound(s) && s.dataQ != []
    ensures !s.dataQ[0].Kill?
  {
  }

  // ----- whole runs

  /** In a run the order of the marks at the alert task is right. */
  ghost predicate InTurn(s: System, actions: seq<Action>, blockSize: nat)
    requires Runs(s, actions, blockSize)
    decreases |actions|
  {
    actions == [] || (StartsInTurn(s, actions[0]) && InTurn(Do(s, actions[0], blockSize), actions[1..], blockSize))
  }

  lemma InitiallySound(t: Table)
    requires "" !in t
    ensures Sound(Initial(t))
  {
    NothingDeferred(t);
  }

  lemma {:induction false} RunKeeps(s: System, actions: seq<Action>, blockSize: nat)
    requires Sound(s) && Runs(s, actions, blockSize) && InTurn(s, actions, blockSize)
    ensures Sound(After(s, actions, blockSize))
    decreases |actions|
  {
    hide Sound, Do, StartsInTurn;
    if actions != [] {
      DoKeeps(s, actions[0], blockSize);
      RunKeeps(Do(s, actions[0], blockSize), actions[1..], blockSize);
    }
  }

  /** For every interleaving of scans, new directories and realtime events, in which the alert
      task handles no start mark between a mid mark and its end mark: when the end of a scan
      is handled, no row is left that the scan has not seen. */
  lemma NoRowIsMissed(t: Table, actions: seq<Action>, blockSize: nat)
    requires "" !in t && Runs(Initial(t), actions, blockSize) && InTurn(Initial(t), actions, blockSize)
    ensures var s := After(Initial(t), actions, blockSize);
      EndIsNext(s) && s.alert.events == [] ==> Unscanned(s.alert.table) == {}
  {
    InitiallySound(t);
    RunKeeps(Initial(t), actions, blockSize);
    var s := After(Initial(t), actions, blockSize);
    if EndIsNext(s) && s.alert.events == [] {
      EndCovers(s);
    }
  }

  // ----- one scan at a time

  function AllMarks(s: System): seq<Mark> { Marks(Stream(s)) + JobMarks(s.scanQ) }

  /** At most one scan is on its way: its marks tell its phase. */
  predicate OneScan(marks: seq<Mark>, running: bool) {
    && (marks == [] || marks == [Start, Mid] || marks == [Mid] || marks == [End])
    && (running <==> marks != [])
  }

  predicate Alone(s: System) { OneScan(AllMarks(s), s.alert.scanIsRunning) }

  /** An end mark with another one behind it is not one scan. */
  lemma EndIsLast(front: seq<Mark>, toPush: seq<Mark>, m: Mark, jobs: seq<Mark>, running: bool)
    ensures !OneScan(front + ([End] + toPush) + ([m] + jobs), running)
  {
    var marks := front + ([End] + toPush) + ([m] + jobs);
    assert |marks| >= 2 && marks[|front|] == End;
  }

  /** The mark that leaves the scan queue does not overtake one that is still to be pushed. */
  lemma EndThenMore(front: seq<Mark>, toPush: seq<Mark>, m: Mark, jobs: seq<Mark>, running: bool)
    requires OneScan(front + toPush + ([m] + jobs), running) && NoEnds(toPush) == []
    ensures toPush == [] && front + [m] + toPush + jobs == front + toPush + ([m] + jobs)
  {
    if toPush != [] {
      assert toPush == [toPush[0]] + toPush[1..] && toPush[0] == End;
      EndIsLast(front, toPush[1..], m, jobs, running);
    }
  }

  lemma AloneMoves(s: System, a: Action, blockSize: nat)
    requires Sound(s) && Alone(s) && Enabled(s, a) && a.ScanTake? && s.scanQ[0].JobMark?
    ensures Alone(Do(s, a, blockSize))
  {
    hide Consistent, Named, Covered, Stream, Marks, JobMarks, Front, NoEnds, TakeTurns, OneScan;
    var m, jobs := s.scanQ[0].mark, JobMarks(Do(s, a, blockSize).scanQ);
    MarkMoves(s, a, blockSize);
    EndThenMore(Marks(Front(s)), Marks(s.alert.events), m, jobs, s.alert.scanIsRunning);
  }

  lemma AloneStarts(s: System, a: Action, blockSize: nat)
    requires Alone(s) && Enabled(s, a) && a.StartScan? && !s.alert.scanIsRunning
    ensures Alone(Do(s, a, blockSize))
  {
    hide Stream, Marks, JobMarks, Jobs;
    SameStream(s, Do(s, a, blockSize));
    ScanMarks(s.scanQ, a.dirs);
    assert Marks(Stream(s)) == [] && JobMarks(s.scanQ) == [];
    assert [] + ([] + [Start, Mid]) == [Start, Mid];
  }

  /** The next mark of the only scan. */
  lemma OneScanAtHead(m: Mark, rest: seq<Mark>, jobs: seq<Mark>, running: bool)
    requires OneScan([m] + rest + jobs, running)
    ensures m == Start ==> End !in rest && OneScan(rest + jobs, running)
    ensures m == Mid ==> rest == [] && jobs == []
    ensures m == End ==> rest + jobs == []
  {
    var marks := [m] + rest + jobs;
    assert marks[0] == m && marks[1..] == rest + jobs;
    assert forall x :: x in rest ==> x in rest + jobs;
  }

  lemma AloneHandles(s: System, a: Action, blockSize: nat)
    requires Alone(s) && Enabled(s, a) && a.AlertTake? && !s.dataQ[0].Kill?
    ensures Alone(Do(s, a, blockSize)) && StartsInTurn(s, a)
  {
    hide AsEvents, Marks, JobMarks, FlushInserts, FlushUpdates, Unmarked, Known, Unlisted, Phase2;
    var s', item, rest, jobs := Do(s, a, blockSize), s.dataQ[0], Marks(Rest(s)), JobMarks(s.scanQ);
    NextInTheStream(s);
    if item.Seen? {
      SeenShares(s.alert, item, a.names, blockSize);
      assert Stream(s') == Rest(s);
    } else {
      OneScanAtHead(item.mark, rest, jobs, s.alert.scanIsRunning);
      HandledMark(s.alert, item.mark, a.names, blockSize);
      if item.mark == Mid {
        Phase2Marks(a.names);
        assert Stream(s') == Rest(s) + Phase2(a.names);
        MarksConcat(Rest(s), Phase2(a.names));
        assert [] + [End] + [] == [End];
      } else {
        assert Stream(s') == Rest(s);
      }
    }
  }

  lemma HandledMark(s: Alerter, m: Mark, names: seq<string>, blockSize: nat)
    ensures var s' := Step(s, Special(m), names, blockSize);
      && s'.scanIsRunning == (m != End && s.scanIsRunning)
      && s'.events == if m == Mid then s.events + Phase2(names) else s.events
  {
    hide Inserted, AllMarked, NewAlerts, Phase2;
  }

  lemma DoStaysAlone(s: System, a: Action, blockSize: nat)
    requires Sound(s) && Alone(s) && Enabled(s, a) && (a.StartScan? ==> !s.alert.scanIsRunning)
    ensures Alone(Do(s, a, blockSize)) && StartsInTurn(s, a)
  {
    hide Sound, OneScan, Do, Stream, Marks, JobMarks, Forced, Unscanned, Lists;
    if Quiet(s, a) {
      QuietMarks(s, a, blockSize);
    } else if a.StartScan? {
      AloneStarts(s, a, blockSize);
    } else if a.ScanTake? {
      AloneMoves(s, a, blockSize);
    } else {
      NoKill(s);
      AloneHandles(s, a, blockSize);
    }
  }

  /** A main thread that starts no scan while one is running keeps the marks in turn. */
  lemma {:induction false} OneAtATimeIsInTurn(s: System, actions: seq<Action>, blockSize: nat)
    requires Sound(s) && Alone(s) && Runs(s, actions, blockSize) && OneAtATime(s, actions, blockSize)
    ensures InTurn(s, actions, blockSize)
    decreases |actions|
  {
    hide Sound, Alone, Do, StartsInTurn;
    if actions != [] {
      DoStaysAlone(s, actions[0], blockSize);
      DoKeeps(s, actions[0], blockSize);
      OneAtATimeIsInTurn(Do(s, actions[0], blockSize), actions[1..], blockSize);
    }
  }

  /** So no row is missed either when scans are started one at a time. */
  lemma OneAtATimeMissesNoRow(t: Table, actions: seq<Action>, blockSize: nat)
    requires "" !in t && Runs(Initial(t), actions, blockSize) && OneAtATime(Initial(t), actions, blockSize)
    ensures InTurn(Initial(t), actions, blockSize)
    ensures var s := After(Initial(t), actions, blockSize);
      EndIsNext(s) && s.alert.events == [] ==> Unscanned(s.alert.table) == {}
  {
    InitiallySound(t);
    OneAtATimeIsInTurn(Initial(t), actions, blockSize);
    NoRowIsMissed(t, actions, blockSize);
  }

  // ----- alerts

  /** In every run from a consistent state, however scans overlap: the UNIQUE key is never
      violated, nothing is deferred outside a scan, and if replaying the alerts gave exactly
      the paths in the table at the start, it does so at the end. */
  lemma {:induction false} AlertsAreComplete(s: System, actions: seq<Action>, blockSize: nat)
    requires Consistent(s.alert) && Runs(s, actions, blockSize)
    ensures var s' := After(s, actions, blockSize);
      Consistent(s'.alert) && (Told(s.alert) ==> Told(s'.alert))
    decreases |actions|
  {
    hide Step, Deferred, Replay;
    if actions != [] {
      if actions[0].AlertTake? {
        StepKeeps(s.alert, s.dataQ[0], actions[0].names, blockSize);
      }
      AlertsAreComplete(Do(s, actions[0], blockSize), actions[1..], blockSize);
    }
  }

  lemma EmptyTableIsTold()
    ensures Consistent(Initial(map[]).alert) && Told(Initial(map[]).alert)
  {
    NothingDeferred(map[]);
    assert Initial(map[]).alert.table.Keys == {};
  }

  /** From an empty table, in every run and however scans overlap: each alert is legal where
      it stands, and replaying them gives exactly the paths in the table. */
  lemma AlertsTellTheTable(actions: seq<Action>, blockSize: nat)
    requires Runs(Initial(map[]), actions, blockSize)
    ensures var s := After(Initial(map[]), actions, blockSize);
      Replay(s.alert.alerts) == Some(s.alert.table.Keys)
  {
    hide Consistent, Replay;
    EmptyTableIsTold();
    AlertsAreComplete(Initial(map[]), actions, blockSize);
  }

  // ----- two scans at a time

  ghost predicate Reaches(s0: System, actions: seq<Action>, s: System, blockSize: nat) {
    Runs(s0, actions, blockSize) && After(s0, actions, blockSize) == s
  }

  lemma Next(s0: System, actions: seq<Action>, s: System, a: Action, blockSize: nat)
    requires Reaches(s0, actions, s, blockSize) && Enabled(s, a)
    ensures Reaches(s0, actions + [a], Do(s, a, blockSize), blockSize)
    decreases |actions|
  {
    hide Do, Enabled;
    if actions == [] {
      assert actions + [a] == [a] && [a][1..] == [];
      assert Runs(Do(s, a, blockSize), [], blockSize)
        && After(Do(s, a, blockSize), [], blockSize) == Do(s, a, blockSize);
    } else {
      assert (actions + [a])[0] == actions[0] && (actions + [a])[1..] == actions[1..] + [a];
      Next(Do(s0, actions[0], blockSize), actions[1..], s, a, blockSize);
    }
  }

  /** A mark travels from the head of the event queue to the alert task. */
  lemma MarkTravels(s0: System, actions: seq<Action>, s: System, m: Mark, names: seq<string>, blockSize: nat)
    returns (more: seq<Action>, s': System)
    requires Reaches(s0, actions, s, blockSize)
    requires s.eventQ != [] && s.eventQ[0] == Marker(m) && s.held.None? && s.dataQ == []
    ensures s' == s.(eventQ := s.eventQ[1..], dataQ := [Special(m)]) && Reaches(s0, more, s', blockSize)
    ensures more == actions + [EventTake, EventPut(None)]
  {
    hide Reaches, Step;
    Next(s0, actions, s, EventTake, blockSize);
    var s1 := Do(s, EventTake, blockSize);
    Next(s0, actions + [EventTake], s1, EventPut(None), blockSize);
    more, s' := actions + [EventTake] + [EventPut(None)], Do(s1, EventPut(None), blockSize);
  }

  /** Nothing on its way but what is in the scan queue and the event queue. */
  function Calm(al: Alerter, scanQ: seq<Job>, eventQ: seq<Event>): System { System(scanQ, false, eventQ, None, [], al) }

  lemma StandingStill(s: System, blockSize: nat)
    ensures Reaches(s, [], s, blockSize)
  {
  }

  /** A mark travels from the head of the event queue to the alert task and is handled. */
  lemma MarkHandled(s0: System, actions: seq<Action>, al: Alerter, scanQ: seq<Job>, eventQ: seq<Event>,
                    m: Mark, names: seq<string>, blockSize: nat)
    returns (more: seq<Action>)
    requires Reaches(s0, actions, Calm(al, scanQ, [Marker(m)] + eventQ), blockSize)
    requires al.events == [] && (m == Mid ==> Lists(names, Unscanned(al.table)))
    ensures Reaches(s0, more, Calm(Step(al, Special(m), names, blockSize), scanQ, eventQ), blockSize)
    ensures more == actions + [EventTake, EventPut(None), AlertTake(names)]
  {
    hide Reaches, Step, Unscanned;
    var s := Calm(al, scanQ, [Marker(m)] + eventQ);
    var s'; more, s' := MarkTravels(s0, actions, s, m, names, blockSize);
    assert s'.eventQ == eventQ;
    Next(s0, more, s', AlertTake(names), blockSize);
    assert Do(s', AlertTake(names), blockSize) == Calm(Step(al, Special(m), names, blockSize), scanQ, eventQ);
    more := more + [AlertTake(names)];
  }

  /** The first scan starts, finds nothing on its walk, and its mid mark is on its way. */
  lemma FirstScan(t: Table, blockSize: nat) returns (actions: seq<Action>)
    ensures var al := Initial(t).alert.(table := Unmarked(t), inScan := true, scanIsRunning := true);
      Reaches(Initial(t), actions, Calm(al, [], [Marker(Mid)]), blockSize)
  {
    hide Reaches, Unmarked;
    var s0 := Initial(t);
    StandingStill(s0, blockSize);
    Next(s0, [], s0, StartScan([]), blockSize);
    var al := s0.alert.(scanIsRunning := true);
    var s1 := Calm(al, [JobMark(Start), JobMark(Mid)], []);
    assert Do(s0, StartScan([]), blockSize) == s1;
    Next(s0, [] + [StartScan([])], s1, ScanTake, blockSize);
    assert Do(s1, ScanTake, blockSize) == Calm(al, [JobMark(Mid)], [Marker(Start)] + []);
    actions := MarkHandled(s0, [] + [StartScan([])] + [ScanTake], al, [JobMark(Mid)], [], Start, [], blockSize);
    var s2 := Calm(al.(table := Unmarked(t), inScan := true), [JobMark(Mid)], []);
    Next(s0, actions, s2, ScanTake, blockSize);
    assert Do(s2, ScanTake, blockSize) == Calm(s2.alert, [], [Marker(Mid)]);
    actions := actions + [ScanTake];
  }

  /** A second scan starts; its start mark gets in front of the first one's end mark. */
  lemma SecondScan(s0: System, acts: seq<Action>, al: Alerter, p: string, blockSize: nat) returns (actions: seq<Action>)
    requires al.events == [] && al.insertSet == [] && al.updateQueue == []
      && al.scanIsRunning && Lists([p], Unscanned(al.table))
    requires Reaches(s0, acts, Calm(al, [], [Marker(Mid)]), blockSize)
    ensures var events := [Path(p, true), Marker(Start), Marker(End)];
      Reaches(s0, actions, Calm(al.(inScan := false), [JobMark(Mid)], events), blockSize)
  {
    hide Reaches, Unscanned;
    var s := Calm(al, [], [Marker(Mid)]);
    Next(s0, acts, s, StartScan([]), blockSize);
    assert Do(s, StartScan([]), blockSize) == Calm(al, [JobMark(Start), JobMark(Mid)], [Marker(Mid)] + []);
    actions := MarkHandled(s0, acts + [StartScan([])], al, [JobMark(Start), JobMark(Mid)], [], Mid, [p], blockSize);
    MidOfOne(al, p, blockSize);
    var al1 := al.(events := [Path(p, true), Marker(End)], inScan := false);
    var s1 := Calm(al1, [JobMark(Start), JobMark(Mid)], []);
    Next(s0, actions, s1, AlertPush, blockSize);
    var s2 := Calm(al1.(events := [Marker(End)]), [JobMark(Start), JobMark(Mid)], [Path(p, true)]);
    assert Do(s1, AlertPush, blockSize) == s2;
    Next(s0, actions + [AlertPush], s2, ScanTake, blockSize);
    var s3 := Calm(s2.alert, [JobMark(Mid)], [Path(p, true), Marker(Start)]);
    assert Do(s2, ScanTake, blockSize) == s3;
    Next(s0, actions + [AlertPush] + [ScanTake], s3, AlertPush, blockSize);
    assert Do(s3, AlertPush, blockSize)
      == Calm(al.(inScan := false), [JobMark(Mid)], [Path(p, true), Marker(Start), Marker(End)]);
    actions := actions + [AlertPush] + [ScanTake] + [AlertPush];
  }

  lemma MidOfOne(al: Alerter, p: string, blockSize: nat)
    requires al.events == [] && al.insertSet == [] && al.updateQueue == []
    ensures Step(al, Special(Mid), [p], blockSize) == al.(events := [Path(p, true), Marker(End)], inScan := false)
  {
    assert [p][1..] == [] && al.alerts + [] == al.alerts;
    assert Phase2([p]) == [Path(p, true)] + Phase2([]);
  }

  /** The row is looked at again and marked, then the second start takes the mark away. */
  lemma MarkedInVain(s0: System, acts: seq<Action>, al: Alerter, fd: FileData, blockSize: nat)
    returns (actions: seq<Action>, al': Alerter)
    requires al.events == [] && !al.inScan && fd.present && fd.path in al.table && fd.path != ""
    requires Reaches(s0, acts, Calm(al, [JobMark(Mid)], [Path(fd.path, true), Marker(Start), Marker(End)]), blockSize)
    ensures Reaches(s0, actions, Calm(al', [JobMark(Mid)], []).(dataQ := [Special(End)]), blockSize)
    ensures al'.events == [] && fd.path in Unscanned(al'.table)
  {
    hide Reaches, Differs, UpdatedRow;
    var s := Calm(al, [JobMark(Mid)], [Path(fd.path, true), Marker(Start), Marker(End)]);
    Next(s0, acts, s, EventTake, blockSize);
    var s1 := s.(eventQ := [Marker(Start), Marker(End)], held := Some(Path(fd.path, true)));
    assert Do(s, EventTake, blockSize) == s1;
    Next(s0, acts + [EventTake], s1, EventPut(Some(fd)), blockSize);
    var s2 := s1.(held := None, dataQ := [Seen(Some(fd), true)]);
    assert Do(s1, EventPut(Some(fd)), blockSize) == s2;
    Next(s0, acts + [EventTake] + [EventPut(Some(fd))], s2, AlertTake([]), blockSize);
    var al1 := Step(al, Seen(Some(fd), true), [], blockSize);
    assert Do(s2, AlertTake([]), blockSize) == Calm(al1, [JobMark(Mid)], [Marker(Start)] + [Marker(End)]);
    assert al1.events == [] && fd.path in al1.table;
    actions := acts + [EventTake] + [EventPut(Some(fd))] + [AlertTake([])];
    actions := MarkHandled(s0, actions, al1, [JobMark(Mid)], [Marker(End)], Start, [], blockSize);
    al' := Step(al1, Special(Start), [], blockSize);
    assert al' == al1.(table := Unmarked(al1.table), inScan := true);
    var s3;
    actions, s3 := MarkTravels(s0, actions, Calm(al', [JobMark(Mid)], [Marker(End)]), End, [], blockSize);
    assert s3.eventQ == [];
  }

  /** Why the marks must be handled in turn, which the main thread does not see to: when the
      start of a scan gets in front of the end mark of the one before, the end of the first
      is handled while a row is unmarked, whatever that row is and whatever was seen at its
      path. */
  lemma OverlapMissesARow(row: Row, fd: FileData, blockSize: nat) returns (actions: seq<Action>)
    requires fd.present && fd.path != ""
    ensures Runs(Initial(map[fd.path := row]), actions, blockSize)
    ensures var s := After(Initial(map[fd.path := row]), actions, blockSize);
      EndIsNext(s) && s.alert.events == [] && fd.path in Unscanned(s.alert.table)
    ensures !InTurn(Initial(map[fd.path := row]), actions, blockSize)
  {
    hide Runs, After, Unmarked, InTurn, Unscanned;
    var t := map[fd.path := row];
    var s0 := Initial(t);
    var acts := FirstScan(t, blockSize);
    var al := s0.alert.(table := Unmarked(t), inScan := true, scanIsRunning := true);
    OnlyOne(t, fd.path);
    acts := SecondScan(s0, acts, al, fd.path, blockSize);
    var al';
    actions, al' := MarkedInVain(s0, acts, al.(inScan := false), fd, blockSize);
    if InTurn(s0, actions, blockSize) {
      NoRowIsMissed(t, actions, blockSize);
    }
  }

  lemma OnlyOne(t: Table, p: string)
    requires t.Keys == {p}
    ensures Lists([p], Unscanned(Unmarked(t)))
  {
  }

  // ----- an object that goes away during the walk

  lemma {:induction false} FirstStartOnly(s: System, actions: seq<Action>, blockSize: nat)
    requires Runs(s, actions, blockSize) && !s.alert.scanIsRunning
    requires forall i :: 1 <= i < |actions| ==> !actions[i].StartScan?
    ensures OneAtATime(s, actions, blockSize)
  {
    hide Do, Enabled;
    if actions != [] {
      NoStart(Do(s, actions[0], blockSize), actions[1..], blockSize);
    }
  }

  lemma {:induction false} NoStart(s: System, actions: seq<Action>, blockSize: nat)
    requires Runs(s, actions, blockSize) && forall i :: 0 <= i < |actions| ==> !actions[i].StartScan?
    ensures OneAtATime(s, actions, blockSize)
    decreases |actions|
  {
    hide Do, Enabled;
    if actions != [] {
      NoStart(Do(s, actions[0], blockSize), actions[1..], blockSize);
    }
  }

  /** A scan of one directory up to the look at the one path that it finds. */
  lemma WalkFindsOne(dir: string, p: string, blockSize: nat) returns (actions: seq<Action>)
    requires dir != "" && p != ""
    ensures Reaches(Initial(map[]), actions, Calm(Walking(), [JobMark(Mid)], [Path(p, true)]), blockSize)
    ensures actions
      == [StartScan([dir]), ScanTake, EventTake, EventPut(None), AlertTake([]), ScanTake, ScanEmit(p), ScanDone]
  {
    hide Reaches, Unmarked;
    var s0 := Initial(map[]);
    StandingStill(s0, blockSize);
    Next(s0, [], s0, StartScan([dir]), blockSize);
    var al := s0.alert.(scanIsRunning := true);
    OneJob(dir);
    var s1 := Calm(al, [JobMark(Start), Dir(dir), JobMark(Mid)], []);
    assert Do(s0, StartScan([dir]), blockSize) == s1;
    Next(s0, [] + [StartScan([dir])], s1, ScanTake, blockSize);
    assert Do(s1, ScanTake, blockSize) == Calm(al, [Dir(dir), JobMark(Mid)], [Marker(Start)] + []);
    actions := MarkHandled(s0, [] + [StartScan([dir])] + [ScanTake],
      al, [Dir(dir), JobMark(Mid)], [], Start, [], blockSize);
    assert Unmarked(map[]) == map[];
    var s2 := Calm(Walking(), [Dir(dir), JobMark(Mid)], []);
    Next(s0, actions, s2, ScanTake, blockSize);
    var s3 := Calm(Walking(), [JobMark(Mid)], []).(walking := true);
    assert Do(s2, ScanTake, blockSize) == s3;
    Next(s0, actions + [ScanTake], s3, ScanEmit(p), blockSize);
    var s4 := s3.(eventQ := [Path(p, true)]);
    assert Do(s3, ScanEmit(p), blockSize) == s4;
    Next(s0, actions + [ScanTake] + [ScanEmit(p)], s4, ScanDone, blockSize);
    actions := actions + [ScanTake] + [ScanEmit(p)] + [ScanDone];
  }

  /** The alert task in a scan that started with an empty table. */
  function Walking(): Alerter { Initial(map[]).alert.(inScan := true, scanIsRunning := true) }

  lemma OneJob(dir: string)
    ensures Jobs([dir]) == [Dir(dir), JobMark(Mid)]
  {
    assert [dir][1..] == [];
  }

  /** The object is seen; then it is seen to be gone. */
  lemma SeenAndGone(s0: System, acts: seq<Action>, fd: FileData, gone: FileData, blockSize: nat)
    returns (actions: seq<Action>)
    requires fd.present && !gone.present && gone.path == fd.path != "" && blockSize >= 2
    requires Reaches(s0, acts, Calm(Walking(), [JobMark(Mid)], [Path(fd.path, true)]), blockSize)
    ensures Reaches(s0, actions, Calm(Walking().(insertSet := [fd]), [JobMark(Mid)], []), blockSize)
    ensures actions == acts + [EventTake, EventPut(Some(fd)), AlertTake([]), Realtime(Some(gone)), AlertTake([])]
  {
    hide Reaches;
    var s := Calm(Walking(), [JobMark(Mid)], [Path(fd.path, true)]);
    Next(s0, acts, s, EventTake, blockSize);
    var s1 := s.(eventQ := [], held := Some(Path(fd.path, true)));
    assert Do(s, EventTake, blockSize) == s1;
    Next(s0, acts + [EventTake], s1, EventPut(Some(fd)), blockSize);
    var s2 := s1.(held := None, dataQ := [Seen(Some(fd), true)]);
    assert Do(s1, EventPut(Some(fd)), blockSize) == s2;
    Next(s0, acts + [EventTake] + [EventPut(Some(fd))], s2, AlertTake([]), blockSize);
    var s3 := Calm(Walking().(insertSet := [fd]), [JobMark(Mid)], []);
    assert Do(s2, AlertTake([]), blockSize) == s3;
    actions := acts + [EventTake] + [EventPut(Some(fd))] + [AlertTake([])];
    Next(s0, actions, s3, Realtime(Some(gone)), blockSize);
    var s4 := s3.(dataQ := [Seen(Some(gone), false)]);
    assert Do(s3, Realtime(Some(gone)), blockSize) == s4;
    Next(s0, actions + [Realtime(Some(gone))], s4, AlertTake([]), blockSize);
    assert Do(s4, AlertTake([]), blockSize) == s3;
    actions := actions + [Realtime(Some(gone))] + [AlertTake([])];
  }

  /** The rest of the scan, in which nothing is looked at. */
  lemma RestOfTheScan(s0: System, acts: seq<Action>, fd: FileData, blockSize: nat)
    returns (actions: seq<Action>, s: System)
    requires Reaches(s0, acts, Calm(Walking().(insertSet := [fd]), [JobMark(Mid)], []), blockSize)
    ensures Reaches(s0, actions, s, blockSize) && EndIsNext(s)
    ensures s.alert.table == map[fd.path := NewRow(fd)] && s.alert.alerts == [New(fd.path)] && s.alert.events == []
    ensures |actions| == |acts| + 7 && actions[..|acts|] == acts
    ensures forall i :: |acts| <= i < |actions| ==> !actions[i].StartScan? && actions[i] in RestActions()
  {
    hide Reaches, NewRow;
    var al := Walking().(insertSet := [fd]);
    var s1 := Calm(al, [JobMark(Mid)], []);
    Next(s0, acts, s1, ScanTake, blockSize);
    assert Do(s1, ScanTake, blockSize) == Calm(al, [], [Marker(Mid)] + []);
    var mid := MarkHandled(s0, acts + [ScanTake], al, [], [], Mid, [], blockSize);
    MidOfWaiting(al, fd, blockSize);
    var al' := Step(al, Special(Mid), [], blockSize);
    var s2 := Calm(al', [], []);
    Next(s0, mid, s2, AlertPush, blockSize);
    var al2 := al'.(events := []);
    assert Do(s2, AlertPush, blockSize) == Calm(al2, [], [Marker(End)]);
    actions, s := MarkTravels(s0, mid + [AlertPush], Calm(al2, [], [Marker(End)]), End, [], blockSize);
    assert actions == acts + [ScanTake, EventTake, EventPut(None), AlertTake([]), AlertPush, EventTake, EventPut(None)];
  }

  /** No observation is among them. */
  function RestActions(): set<Action> { {ScanTake, EventTake, EventPut(None), AlertTake([]), AlertPush} }

  lemma MidOfWaiting(al: Alerter, fd: FileData, blockSize: nat)
    requires al == Walking().(insertSet := [fd])
    ensures Step(al, Special(Mid), [], blockSize)
         == al.(table := map[fd.path := NewRow(fd)], insertSet := [],
           inScan := false, alerts := [New(fd.path)], events := [Marker(End)])
  {
    assert [fd][1..] == [] && Inserted(map[], [fd]) == map[fd.path := NewRow(fd)] by {
      assert map[][fd.path := NewRow(fd)] == map[fd.path := NewRow(fd)];
    }
    assert NewAlerts([fd]) == [New(fd.path)] && [] + [New(fd.path)] == [New(fd.path)]
      && [] + [Marker(End)] == [Marker(End)];
  }

  /** The deferred insertion is not withdrawn: for every object there is a run from an empty
      table, with a single scan and a batch of two rows or more, in which the last thing
      seen at its path is that nothing is there; when the scan ends the object has been
      reported as new and has a row that counts as seen. */
  lemma GoneIsRecorded(dir: string, fd: FileData, gone: FileData, blockSize: nat)
    returns (actions: seq<Action>, last: nat)
    requires dir != "" && fd.path != "" && fd.present && !gone.present && gone.path == fd.path && blockSize >= 2
    ensures Runs(Initial(map[]), actions, blockSize) && OneAtATime(Initial(map[]), actions, blockSize)
    ensures last < |actions| && actions[last] == Realtime(Some(gone))
    ensures forall i :: last < i < |actions| ==> actions[i] in RestActions()
    ensures var s := After(Initial(map[]), actions, blockSize);
      && EndIsNext(s) && s.alert.events == []
      && fd.path in s.alert.table && s.alert.table[fd.path].scanned && s.alert.alerts == [New(fd.path)]
  {
    hide Runs, After, OneAtATime;
    var s0 := Initial(map[]);
    var walk := WalkFindsOne(dir, fd.path, blockSize);
    var acts := SeenAndGone(s0, walk, fd, gone, blockSize);
    var s;
    actions, s := RestOfTheScan(s0, acts, fd, blockSize);
    last := |acts| - 2;
    assert forall i :: 1 <= i < |acts| ==> !acts[i].StartScan?;
    forall i | 1 <= i < |actions|
      ensures !actions[i].StartScan?
    {
      if i < |acts| {
        assert actions[i] == actions[..|acts|][i];
      }
    }
    assert actions[last] == actions[..|acts|][last];
    assert actions[last + 1] == actions[..|acts|][last + 1];
    FirstStartOnly(s0, actions, blockSize);
  }
}
