/** What the alert task of the disk scanner does with one queue element: a function of its
    database table, its deferred work and the element. */
module Diskscan {
  import opened Optional

  datatype Kind = Directory | File | Socket | Link | BlockDevice | CharacterDevice | Fifo | Unknown

  /** What was seen at a path; `present` is false when nothing is there. */
  datatype FileData = FileData(
    path: string, present: bool, contentChecked: bool, user: string, group: string, size: int, kind: Kind,
    sha256: string, target: string, inode: int, mode: int, mtime: int, ctime: int)

  /** A row of the table; its key is the path. */
  datatype Row = Row(
    user: string, group: string, size: int, inode: int, mode: int, mtime: int, ctime: int, kind: Kind,
    sha256: string, target: string, scanned: bool)

  type Table = map<string, Row>

  datatype Mark = Start | Mid | End

  /** An element of the file-data queue. */
  datatype Item = Kill | Special(mark: Mark) | Seen(data: Option<FileData>, force: bool)

  /** An element of the event queue. */
  datatype Event = Marker(mark: Mark) | Path(path: string, force: bool)

  datatype Alert = New(path: string) | Changed(path: string) | Deleted(path: string) | KillMessage

  /** The state the alert task owns, what it has put into the two queues it writes to, and
      the flag it shares with the main thread. */
  datatype Alerter = Alerter(
    table: Table, inScan: bool, insertSet: seq<FileData>, updateQueue: seq<string>,
    alerts: seq<Alert>, events: seq<Event>, scanIsRunning: bool, stopped: bool)

  // ----- rows

  /** A fresh row: scanned by default. */
  function NewRow(fd: FileData): Row {
    Row(fd.user, fd.group, fd.size, fd.inode, fd.mode, fd.mtime, fd.ctime, fd.kind,
        if fd.contentChecked then fd.sha256 else "not computed", fd.target, true)
  }

  function UpdatedRow(row: Row, fd: FileData): Row {
    Row(fd.user, fd.group, fd.size, fd.inode, fd.mode, fd.mtime, fd.ctime, fd.kind,
        if fd.contentChecked then fd.sha256 else row.sha256, fd.target, true)
  }

  /** Inode and time stamps alone do not make an alert. */
  predicate Differs(row: Row, fd: FileData) {
    || row.user != fd.user || row.group != fd.group || row.size != fd.size || row.mode != fd.mode
    || (fd.kind == File && fd.contentChecked && row.sha256 != fd.sha256)
    || (fd.kind == Link && fd.contentChecked && row.target != fd.target)
    || row.kind != fd.kind
  }

  // ----- paths in order

  predicate Less(a: string, b: string) {
    b != [] && (a == [] || a[0] < b[0] || (a[0] == b[0] && Less(a[1..], b[1..])))
  }

  lemma {:induction false} LessTransitive(a: string, b: string, c: string)
    requires Less(a, b) && Less(b, c)
    ensures Less(a, c)
  {
    if a != [] && a[0] == b[0] == c[0] {
      LessTransitive(a[1..], b[1..], c[1..]);
    }
  }

  lemma {:induction false} LessTotal(a: string, b: string)
    ensures Less(a, b) || a == b || Less(b, a)
  {
    if a != [] && b != [] && a[0] == b[0] {
      LessTotal(a[1..], b[1..]);
      assert a == [a[0]] + a[1..] && b == [b[0]] + b[1..];
    }
  }

  lemma {:induction false} LessIrreflexive(a: string)
    ensures !Less(a, a)
  {
    if a != [] {
      LessIrreflexive(a[1..]);
    }
  }

  function Paths(s: seq<FileData>): set<string> { set i | 0 <= i < |s| :: s[i].path }

  /** The invariant of the ordered set: strictly increasing paths. */
  ghost predicate Sorted(s: seq<FileData>) {
    forall i, j :: 0 <= i < j < |s| ==> Less(s[i].path, s[j].path)
  }

  /** Insert into the ordered set, replacing an element with the same path. */
  function Put(s: seq<FileData>, fd: FileData): seq<FileData> {
    if s == [] || Less(fd.path, s[0].path) then [fd] + s
    else if s[0].path == fd.path then [fd] + s[1..]
    else [s[0]] + Put(s[1..], fd)
  }

  lemma {:induction false} PutPaths(s: seq<FileData>, fd: FileData)
    ensures Paths(Put(s, fd)) == Paths(s) + {fd.path} && fd in Put(s, fd)
  {
    if s == [] || Less(fd.path, s[0].path) {
      PathsCons(fd, s);
    } else {
      assert s == [s[0]] + s[1..];
      PathsCons(s[0], s[1..]);
      if s[0].path == fd.path {
        PathsCons(fd, s[1..]);
      } else {
        PutPaths(s[1..], fd);
        PathsCons(s[0], Put(s[1..], fd));
      }
    }
  }

  lemma PathsCons(fd: FileData, s: seq<FileData>)
    ensures Paths([fd] + s) == {fd.path} + Paths(s)
  {
    var t := [fd] + s;
    forall p | p in {fd.path} + Paths(s) ensures p in Paths(t) {
      if p in Paths(s) {
        var i :| 0 <= i < |s| && s[i].path == p;
        assert t[i + 1].path == p;
      } else {
        assert t[0].path == p;
      }
    }
  }

  lemma SortedCons(fd: FileData, s: seq<FileData>)
    requires Sorted(s) && forall p :: p in Paths(s) ==> Less(fd.path, p)
    ensures Sorted([fd] + s)
  {
    var t := [fd] + s;
    forall i, j | 0 <= i < j < |t| ensures Less(t[i].path, t[j].path) {
      assert t[j] == s[j - 1] && s[j - 1].path in Paths(s);
      if i > 0 {
        assert t[i] == s[i - 1];
      }
    }
  }

  lemma SortedTail(s: seq<FileData>)
    requires Sorted(s) && s != []
    ensures Sorted(s[1..]) && forall p :: p in Paths(s[1..]) ==> Less(s[0].path, p)
  {
  }

  lemma {:induction false} PutSorted(s: seq<FileData>, fd: FileData)
    requires Sorted(s)
    ensures Sorted(Put(s, fd))
  {
    if s == [] {
    } else {
      SortedTail(s);
      assert s == [s[0]] + s[1..];
      PathsCons(s[0], s[1..]);
      if Less(fd.path, s[0].path) {
        forall p | p in Paths(s) ensures Less(fd.path, p) {
          if p in Paths(s[1..]) {
            LessTransitive(fd.path, s[0].path, p);
          }
        }
        SortedCons(fd, s);
      } else if s[0].path == fd.path {
        SortedCons(fd, s[1..]);
      } else {
        LessTotal(fd.path, s[0].path);
        PutSorted(s[1..], fd);
        PutPaths(s[1..], fd);
        SortedCons(s[0], Put(s[1..], fd));
      }
    }
  }

  // ----- statements on the table

  /** UPDATE ... SET scanned = 0. */
  function Unmarked(t: Table): (r: Table)
    ensures r.Keys == t.Keys
  {
    map p | p in t :: t[p].(scanned := false)
  }

  /** UPDATE ... SET scanned = 1 WHERE name = p: nothing happens when there is no such row. */
  function Marked(t: Table, p: string): (r: Table)
    ensures r.Keys == t.Keys
  {
    if p in t then t[p := t[p].(scanned := true)] else t
  }

  function AllMarked(t: Table, paths: seq<string>): (r: Table)
    ensures r.Keys == t.Keys
  {
    if paths == [] then t else AllMarked(Marked(t, paths[0]), paths[1..])
  }

  function Inserted(t: Table, s: seq<FileData>): Table
    decreases |s|
  {
    if s == [] then t else Inserted(t[s[0].path := NewRow(s[0])], s[1..])
  }

  function NewAlerts(s: seq<FileData>): (a: seq<Alert>)
    ensures |a| == |s|
  {
    if s == [] then [] else [New(s[0].path)] + NewAlerts(s[1..])
  }

  /** SELECT ... WHERE scanned = 0. */
  function Unscanned(t: Table): set<string> { set p | p in t && !t[p].scanned }

  /** The rows of a result in whatever order the database returns them, each once. */
  ghost predicate Lists(names: seq<string>, s: set<string>) {
    (forall p :: p in names <==> p in s) && forall i, j :: 0 <= i < j < |names| ==> names[i] != names[j]
  }

  /** The events of phase 2. */
  function Phase2(names: seq<string>): (e: seq<Event>)
    ensures |e| == |names| + 1
  {
    if names == [] then [Marker(End)] else [Path(names[0], true)] + Phase2(names[1..])
  }

  // ----- one element

  function FlushInserts(s: Alerter): Alerter {
    s.(table := Inserted(s.table, s.insertSet), alerts := s.alerts + NewAlerts(s.insertSet), insertSet := [])
  }

  function FlushUpdates(s: Alerter): Alerter {
    s.(table := AllMarked(s.table, s.updateQueue), updateQueue := [])
  }

  function Known(s: Alerter, fd: FileData, force: bool, blockSize: nat): Alerter
    requires fd.path in s.table
  {
    var p, row := fd.path, s.table[fd.path];
    if !fd.present then s.(table := s.table - {p}, alerts := s.alerts + [Deleted(p)])
    else if Differs(row, fd) then s.(table := s.table[p := UpdatedRow(row, fd)], alerts := s.alerts + [Changed(p)])
    else if !force then s
    else if !s.inScan then s.(table := Marked(s.table, p))
    else if |s.updateQueue| + 1 >= blockSize then FlushUpdates(s.(updateQueue := s.updateQueue + [p]))
    else s.(updateQueue := s.updateQueue + [p])
  }

  function Unlisted(s: Alerter, fd: FileData, blockSize: nat): Alerter {
    if !fd.present then s
    else if !s.inScan then s.(table := s.table[fd.path := NewRow(fd)], alerts := s.alerts + [New(fd.path)])
    else if |Put(s.insertSet, fd)| >= blockSize then FlushInserts(s.(insertSet := Put(s.insertSet, fd)))
    else s.(insertSet := Put(s.insertSet, fd))
  }

  /** `names` is what the SELECT of phase 2 returns. */
  function Step(s: Alerter, item: Item, names: seq<string>, blockSize: nat): Alerter {
    match item
    case Kill => s.(alerts := s.alerts + [KillMessage], stopped := true)
    case Special(Start) => s.(table := Unmarked(s.table), inScan := true)
    case Special(Mid) => FlushUpdates(FlushInserts(s.(events := s.events + Phase2(names), inScan := false)))
    case Special(End) => s.(scanIsRunning := false)
    case Seen(None, _) => s
    case Seen(Some(fd), force) =>
      if fd.path in s.table then Known(s, fd, force, blockSize) else Unlisted(s, fd, blockSize)
  }

  // ----- what every step keeps

  /** The paths that are known after a stream of alerts; nothing when an alert is out of
      place: a new object that is already known, or any other alert about an unknown one. */
  function Replay(alerts: seq<Alert>): Option<set<string>> {
    if alerts == [] then Some({})
    else
      var before, last := Replay(alerts[..|alerts| - 1]), alerts[|alerts| - 1];
      if before.None? then None
      else match last
        case New(p) => if p in before.value then None else Some(before.value + {p})
        case Changed(p) => if p in before.value then before else None
        case Deleted(p) => if p in before.value then Some(before.value - {p}) else None
        case KillMessage => before
  }

  lemma ReplayOne(alerts: seq<Alert>, a: Alert)
    ensures var before := Replay(alerts);
      Replay(alerts + [a]) ==
        if before.None? then None
        else match a
          case New(p) => if p in before.value then None else Some(before.value + {p})
          case Changed(p) => if p in before.value then before else None
          case Deleted(p) => if p in before.value then Some(before.value - {p}) else None
          case KillMessage => before
  {
    assert (alerts + [a])[..|alerts|] == alerts;
  }

  /** A batch of rows whose paths are neither in the table nor twice in the batch. */
  lemma {:induction false} InsertedRows(t: Table, s: seq<FileData>)
    requires Sorted(s) && (forall p :: p in Paths(s) ==> p !in t)
    ensures Inserted(t, s).Keys == t.Keys + Paths(s)
    ensures forall p :: p in t ==> Inserted(t, s)[p] == t[p]
    ensures forall p :: p in Paths(s) ==> Inserted(t, s)[p].scanned
    decreases |s|
  {
    hide Less;
    if s != [] {
      var t' := OneMore(t, s);
      InsertedRows(t', s[1..]);
    }
  }

  /** The first row of a batch can be inserted, and leaves a batch for the rest. */
  lemma OneMore(t: Table, s: seq<FileData>) returns (t': Table)
    requires s != [] && Sorted(s) && (forall p :: p in Paths(s) ==> p !in t)
    ensures t' == t[s[0].path := NewRow(s[0])] && t'.Keys == t.Keys + {s[0].path} && s[0].path !in t
    ensures Sorted(s[1..]) && Paths(s) == {s[0].path} + Paths(s[1..]) && (forall p :: p in Paths(s[1..]) ==> p !in t')
    ensures t'[s[0].path].scanned
  {
    hide Less;
    t' := t[s[0].path := NewRow(s[0])];
    assert s == [s[0]] + s[1..];
    PathsCons(s[0], s[1..]);
    SortedTail(s);
    LessIrreflexive(s[0].path);
  }

  lemma {:induction false} InsertedReplay(t: Table, s: seq<FileData>, alerts: seq<Alert>)
    requires Sorted(s) && (forall p :: p in Paths(s) ==> p !in t) && Replay(alerts) == Some(t.Keys)
    ensures Replay(alerts + NewAlerts(s)) == Some(t.Keys + Paths(s))
    decreases |s|
  {
    hide Less, Replay, Sorted;
    if s == [] {
      assert alerts + NewAlerts(s) == alerts;
      assert t.Keys + Paths(s) == t.Keys;
    } else {
      var t' := OneMore(t, s);
      ReplayOne(alerts, New(s[0].path));
      InsertedReplay(t', s[1..], alerts + [New(s[0].path)]);
      assert alerts + NewAlerts(s) == alerts + [New(s[0].path)] + NewAlerts(s[1..]);
      assert t'.Keys + Paths(s[1..]) == t.Keys + Paths(s);
    }
  }

  // ----- the invariants, step by step

  /** Deferred rows are in order and not in the table. */
  ghost predicate Deferred(t: Table, s: seq<FileData>) {
    Sorted(s) && forall p :: p in Paths(s) ==> p !in t
  }

  ghost predicate Told(s: Alerter) { Replay(s.alerts) == Some(s.table.Keys) }

  lemma FlushKeeps(s: Alerter)
    requires Deferred(s.table, s.insertSet)
    ensures Deferred(FlushInserts(s).table, []) && (Told(s) ==> Told(FlushInserts(s)))
  {
    hide Less, Replay, Sorted;
    InsertedRows(s.table, s.insertSet);
    if Told(s) {
      InsertedReplay(s.table, s.insertSet, s.alerts);
    }
    NothingDeferred(FlushInserts(s).table);
  }

  lemma NothingDeferred(t: Table)
    ensures Deferred(t, [])
  {
    assert Paths([]) == {};
  }

  /** In every reachable state the deferred rows can be inserted without violating the
      UNIQUE key, and nothing is deferred outside a scan. */
  ghost predicate Consistent(s: Alerter) {
    Deferred(s.table, s.insertSet) && (!s.inScan ==> s.insertSet == [] && s.updateQueue == [])
  }

  lemma KnownKeeps(s: Alerter, fd: FileData, force: bool, blockSize: nat)
    requires Consistent(s) && fd.path in s.table
    ensures var s' := Known(s, fd, force, blockSize);
      Consistent(s') && (Told(s) ==> Told(s'))
  {
    hide Less, Replay, Sorted, AllMarked, Differs, UpdatedRow;
    var p := fd.path;
    ReplayOne(s.alerts, Deleted(p));
    ReplayOne(s.alerts, Changed(p));
    assert (s.table - {p}).Keys == s.table.Keys - {p};
    assert s.table[p := UpdatedRow(s.table[p], fd)].Keys == s.table.Keys;
  }

  lemma UnlistedKeeps(s: Alerter, fd: FileData, blockSize: nat)
    requires Consistent(s) && fd.path !in s.table
    ensures var s' := Unlisted(s, fd, blockSize);
      Consistent(s') && (Told(s) ==> Told(s'))
  {
    hide Less, Replay, Sorted, Put, FlushInserts;
    ReplayOne(s.alerts, New(fd.path));
    assert s.table[fd.path := NewRow(fd)].Keys == s.table.Keys + {fd.path};
    NothingDeferred(s.table[fd.path := NewRow(fd)]);
    PutSorted(s.insertSet, fd);
    PutPaths(s.insertSet, fd);
    FlushKeeps(s.(insertSet := Put(s.insertSet, fd)));
    FlushedIsEmpty(s.(insertSet := Put(s.insertSet, fd)));
  }

  lemma FlushedIsEmpty(s: Alerter)
    ensures FlushInserts(s).insertSet == [] && FlushInserts(s).updateQueue == s.updateQueue
      && FlushInserts(s).inScan == s.inScan
  {
  }

  /** Every step keeps the deferred rows insertable, and the alerts tell the whole story:
      replaying them gives exactly the paths in the table. */
  lemma StepKeeps(s: Alerter, item: Item, names: seq<string>, blockSize: nat)
    requires Consistent(s)
    ensures var s' := Step(s, item, names, blockSize);
      Consistent(s') && (Told(s) ==> Told(s'))
  {
    hide Less, Replay, Sorted, AllMarked, Known, Unlisted, FlushInserts, Phase2;
    match item
    case Kill => ReplayOne(s.alerts, KillMessage);
    case Special(m) =>
      FlushKeeps(s.(events := s.events + Phase2(names), inScan := false));
      FlushedIsEmpty(s.(events := s.events + Phase2(names), inScan := false));
    case Seen(None, _) =>
    case Seen(Some(fd), force) =>
      if fd.path in s.table {
        KnownKeeps(s, fd, force, blockSize);
      } else {
        UnlistedKeeps(s, fd, blockSize);
      }
  }

  // ----- what a step does to the marks

  lemma {:induction false} AllMarkedRows(t: Table, paths: seq<string>)
    ensures forall p :: p in t ==> AllMarked(t, paths)[p] == if p in paths then t[p].(scanned := true) else t[p]
    decreases |paths|
  {
    if paths != [] {
      AllMarkedRows(Marked(t, paths[0]), paths[1..]);
      assert paths == [paths[0]] + paths[1..];
    }
  }

  lemma FlushMarks(s: Alerter)
    requires Deferred(s.table, s.insertSet)
    ensures Unscanned(FlushInserts(s).table) <= Unscanned(s.table)
  {
    hide Less, Sorted, Inserted;
    InsertedRows(s.table, s.insertSet);
  }

  lemma UpdateMarks(s: Alerter)
    ensures Unscanned(FlushUpdates(s).table) <= Unscanned(s.table)
  {
    hide AllMarked;
    AllMarkedRows(s.table, s.updateQueue);
  }

  lemma KnownMarks(s: Alerter, fd: FileData, force: bool, blockSize: nat)
    requires fd.path in s.table
    ensures Unscanned(Known(s, fd, force, blockSize).table) <= Unscanned(s.table)
  {
    hide AllMarked, Differs, FlushUpdates;
    UpdateMarks(s.(updateQueue := s.updateQueue + [fd.path]));
  }

  lemma UnlistedMarks(s: Alerter, fd: FileData, blockSize: nat)
    requires Consistent(s) && fd.path !in s.table
    ensures Unscanned(Unlisted(s, fd, blockSize).table) <= Unscanned(s.table)
  {
    hide Less, Sorted, Put, FlushInserts;
    PutSorted(s.insertSet, fd);
    PutPaths(s.insertSet, fd);
    FlushMarks(s.(insertSet := Put(s.insertSet, fd)));
  }

  /** Only the start of a scan takes marks away. */
  lemma MarksStay(s: Alerter, item: Item, names: seq<string>, blockSize: nat)
    requires Consistent(s) && item != Special(Start)
    ensures Unscanned(Step(s, item, names, blockSize).table) <= Unscanned(s.table)
  {
    hide Less, Sorted, Known, Unlisted, FlushInserts, FlushUpdates, Phase2;
    match item
    case Kill =>
    case Special(m) =>
      if m == Mid {
        var s1 := s.(events := s.events + Phase2(names), inScan := false);
        FlushMarks(s1);
        UpdateMarks(FlushInserts(s1));
      }
    case Seen(None, _) =>
    case Seen(Some(fd), force) =>
      if fd.path in s.table {
        KnownMarks(s, fd, force, blockSize);
      } else {
        UnlistedMarks(s, fd, blockSize);
      }
  }

  /** A forced observation outside the directory walk settles its row: the row is marked,
      replaced by a marked one, or deleted. */
  lemma ForcedIsSettled(s: Alerter, fd: FileData, names: seq<string>, blockSize: nat)
    requires Consistent(s) && !s.inScan
    ensures fd.path !in Unscanned(Step(s, Seen(Some(fd), true), names, blockSize).table)
  {
  }

  // ----- what the table says after an observation

  /** Outside the walk an observation is recorded at once: the path has a row exactly when
      something is there, and the row shows what was seen. A row that is new or was changed
      has every field of the observation. The other rows are not touched. */
  lemma SeenIsRecorded(s: Alerter, fd: FileData, force: bool, names: seq<string>, blockSize: nat)
    requires Consistent(s) && !s.inScan
    ensures var s' := Step(s, Seen(Some(fd), force), names, blockSize);
      && (fd.path in s'.table <==> fd.present)
      && (fd.present ==> !Differs(s'.table[fd.path], fd))
      && (fd.present && s'.alerts != s.alerts ==> Shows(s'.table[fd.path], fd))
      && s'.table - {fd.path} == s.table - {fd.path}
  {
    hide Less, Sorted, Put, Inserted, AllMarked, Phase2;
  }

  /** Every field that an observation fills in. */
  predicate Shows(row: Row, fd: FileData) {
    && row.user == fd.user && row.group == fd.group && row.size == fd.size
    && row.inode == fd.inode && row.mode == fd.mode
    && row.mtime == fd.mtime && row.ctime == fd.ctime && row.kind == fd.kind && row.target == fd.target
    && (fd.contentChecked ==> row.sha256 == fd.sha256) && row.scanned
  }

  /** The paths that have a row or wait for one. */
  function Contents(s: Alerter): set<string> { s.table.Keys + Paths(s.insertSet) }

  lemma FlushContents(s: Alerter)
    requires Deferred(s.table, s.insertSet)
    ensures Contents(FlushInserts(s)) == Contents(s)
  {
    hide Less, Sorted, Inserted;
    InsertedRows(s.table, s.insertSet);
    assert Paths([]) == {};
  }

  /** An observation of a path without a row adds it when something is there. That nothing
      is there changes nothing, even when the path waits for its row. */
  lemma UnlistedContents(s: Alerter, fd: FileData, blockSize: nat)
    requires Consistent(s) && fd.path !in s.table
    ensures Contents(Unlisted(s, fd, blockSize)) == if fd.present then Contents(s) + {fd.path} else Contents(s)
  {
    hide Less, Sorted, Put, FlushInserts;
    PutPaths(s.insertSet, fd);
    PutSorted(s.insertSet, fd);
    FlushContents(s.(insertSet := Put(s.insertSet, fd)));
    assert s.table[fd.path := NewRow(fd)].Keys == s.table.Keys + {fd.path};
  }

  lemma KnownContents(s: Alerter, fd: FileData, force: bool, blockSize: nat)
    requires Consistent(s) && fd.path in s.table
    ensures Contents(Known(s, fd, force, blockSize)) == if fd.present then Contents(s) else Contents(s) - {fd.path}
  {
    hide Less, Sorted, AllMarked, Differs, UpdatedRow;
    var p := fd.path;
    assert (s.table - {p}).Keys == s.table.Keys - {p};
    assert s.table[p := UpdatedRow(s.table[p], fd)].Keys == s.table.Keys;
    assert p !in Paths(s.insertSet);
  }

  /** What an observation does to the paths that are known or about to be. */
  lemma SeenContents(s: Alerter, fd: FileData, force: bool, names: seq<string>, blockSize: nat)
    requires Consistent(s)
    ensures Contents(Step(s, Seen(Some(fd), force), names, blockSize))
      == if fd.present then Contents(s) + {fd.path}
         else if fd.path in s.table then Contents(s) - {fd.path}
         else Contents(s)
  {
    hide Less, Sorted, Known, Unlisted, Consistent;
    if fd.path in s.table {
      KnownContents(s, fd, force, blockSize);
    } else {
      UnlistedContents(s, fd, blockSize);
    }
  }

  /** Nothing else changes them. */
  lemma OtherContents(s: Alerter, item: Item, names: seq<string>, blockSize: nat)
    requires Consistent(s) && (item.Seen? ==> item.data.None?)
    ensures Contents(Step(s, item, names, blockSize)) == Contents(s)
  {
    hide Less, Sorted, FlushInserts, AllMarked, Phase2;
    FlushContents(s.(events := s.events + Phase2(names), inScan := false));
  }

  /** The paths that have a row or wait for one say what was last seen, if and only if
      something was seen there or the path was not waiting. */
  lemma ObservedIff(s: Alerter, fd: FileData, force: bool, names: seq<string>, blockSize: nat)
    requires Consistent(s)
    ensures var s' := Step(s, Seen(Some(fd), force), names, blockSize);
      && Contents(s') - {fd.path} == Contents(s) - {fd.path}
      && ((fd.path in Contents(s') <==> fd.present) <==> (fd.present || fd.path !in Paths(s.insertSet)))
  {
    hide Step, Less, Sorted, Paths;
    SeenContents(s, fd, force, names, blockSize);
  }

  /** During the walk a new object is in the table or waits for it as it was seen. One that
      has gone again changes nothing: a row that waits for the path goes on waiting. */
  lemma WalkedIsRecorded(s: Alerter, fd: FileData, force: bool, names: seq<string>, blockSize: nat)
    requires Consistent(s) && s.inScan && fd.path !in s.table
    ensures var s' := Step(s, Seen(Some(fd), force), names, blockSize);
      if fd.present then fd in s'.insertSet || (fd.path in s'.table && Shows(s'.table[fd.path], fd)) else s' == s
  {
    hide Less, Sorted, Put, Inserted, Shows;
    PutPaths(s.insertSet, fd);
    PutSorted(s.insertSet, fd);
    if fd.present {
      InsertedShows(s.table, Put(s.insertSet, fd), fd);
    }
  }

  /** What waits when the walk is over is inserted as an object that was seen, and no look
      is taken at it in phase 2. */
  lemma WaitingIsInserted(s: Alerter, p: string, names: seq<string>, blockSize: nat)
    requires Consistent(s) && p in Paths(s.insertSet) && Lists(names, Unscanned(s.table))
    ensures var s' := Step(s, Special(Mid), names, blockSize);
      p in s'.table && s'.table[p].scanned && Path(p, true) !in s'.events[|s.events|..]
  {
    hide Less, Sorted, Inserted, AllMarked, Phase2;
    InsertedRows(s.table, s.insertSet);
    AllMarkedRows(FlushInserts(s).table, s.updateQueue);
    Phase2Paths(names);
    assert (s.events + Phase2(names))[|s.events|..] == Phase2(names);
  }

  lemma {:induction false} Phase2Paths(names: seq<string>)
    ensures forall p, force :: Path(p, force) in Phase2(names) ==> p in names
  {
    if names != [] {
      Phase2Paths(names[1..]);
    }
  }

  lemma {:induction false} InsertedShows(t: Table, batch: seq<FileData>, fd: FileData)
    requires Deferred(t, batch) && fd in batch
    ensures fd.path in Inserted(t, batch) && Shows(Inserted(t, batch)[fd.path], fd)
    decreases |batch|
  {
    hide Less, Sorted;
    var t' := OneMore(t, batch);
    InsertedRows(t', batch[1..]);
    if batch[0] != fd {
      assert fd in batch[1..];
      InsertedShows(t', batch[1..], fd);
    }
  }
}
