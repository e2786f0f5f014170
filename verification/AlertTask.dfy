/** The alert task: the only thread that touches the table. */
module AlertTask {
  import opened Optional
  import opened Diskscan

  class Task {
    const blockSize: nat
    var table: Table
    var inScan: bool
    var insertSet: seq<FileData>
    var updateQueue: seq<string>
    var alerts: seq<Alert>
    var events: seq<Event>
    var scanIsRunning: bool
    var stopped: bool

    ghost function View(): Alerter
      reads this
    {
      Alerter(table, inScan, insertSet, updateQueue, alerts, events, scanIsRunning, stopped)
    }

    /** What holds between two elements of the queue. */
    ghost predicate Valid()
      reads this
    {
      Consistent(View())
    }

    constructor (table: Table, blockSize: nat)
      ensures Valid() && this.blockSize == blockSize
      ensures View() == Alerter(table, false, [], [], [], [], false, false)
    {
      this.blockSize, this.table := blockSize, table;
      inScan, insertSet, updateQueue := false, [], [];
      alerts, events, scanIsRunning, stopped := [], [], false, false;
      new;
      NothingDeferred(table);
    }

    /** INSERT INTO: the key must be new. */
    method Insert(fd: FileData)
      requires fd.path !in table
      modifies `table, `alerts
      ensures table == old(table)[fd.path := NewRow(fd)] && alerts == old(alerts) + [New(fd.path)]
    {
      table := table[fd.path := NewRow(fd)];
      alerts := alerts + [New(fd.path)];
    }

    /** Every deferred row is inserted, in the order of the set. */
    method DoInsertSet()
      requires Deferred(table, insertSet)
      modifies `table, `alerts, `insertSet
      ensures View() == FlushInserts(old(View()))
    {
      hide Less, Sorted, NewRow;
      if insertSet == [] {
        return;
      }
      var rest := insertSet;
      while rest != []
        invariant insertSet == old(insertSet) && Deferred(table, rest)
        invariant Inserted(table, rest) == Inserted(old(table), insertSet)
        invariant alerts + NewAlerts(rest) == old(alerts) + NewAlerts(insertSet)
        decreases |rest|
      {
        ghost var t' := OneMore(table, rest);
        Insert(rest[0]);
        rest := rest[1..];
      }
      assert alerts + NewAlerts(rest) == alerts;
      insertSet := [];
    }

    /** Every deferred mark is set, first in first out. */
    method DoUpdateQueue()
      modifies `table, `updateQueue
      ensures View() == FlushUpdates(old(View()))
    {
      while updateQueue != []
        invariant AllMarked(table, updateQueue) == AllMarked(old(table), old(updateQueue))
        decreases |updateQueue|
      {
        table := Marked(table, updateQueue[0]);
        updateQueue := updateQueue[1..];
      }
    }

    /** The rows that the directory walk did not mark. */
    method SelectNonScanned() returns (names: seq<string>)
      ensures Lists(names, Unscanned(table))
    {
      names := [];
      var rest := Unscanned(table);
      while rest != {}
        invariant forall p :: p in names <==> p in Unscanned(table) - rest
        invariant rest <= Unscanned(table)
        invariant forall i, j :: 0 <= i < j < |names| ==> names[i] != names[j]
        decreases rest
      {
        var p :| p in rest;
        assert p !in names;
        names, rest := names + [p], rest - {p};
      }
    }

    /** The phase-2 events, then the mark that ends the scan. */
    method QueuePhase2(names: seq<string>)
      modifies `events
      ensures events == old(events) + Phase2(names)
    {
      var i := 0;
      while i < |names|
        invariant 0 <= i <= |names|
        invariant events + Phase2(names[i..]) == old(events) + Phase2(names)
      {
        assert names[i..][1..] == names[i + 1..];
        events := events + [Path(names[i], true)];
        i := i + 1;
      }
      events := events + [Marker(End)];
    }

    /** An observation of a path that has a row. */
    method HandleKnown(fd: FileData, force: bool)
      requires Valid() && fd.path in table
      modifies this
      ensures View() == Known(old(View()), fd, force, blockSize)
    {
      hide Less, Differs, UpdatedRow;
      var row := table[fd.path];
      if fd.present {
        if Differs(row, fd) {
          table := table[fd.path := UpdatedRow(row, fd)];
          alerts := alerts + [Changed(fd.path)];
        } else if force {
          if !inScan {
            table := Marked(table, fd.path);
          } else {
            updateQueue := updateQueue + [fd.path];
            if |updateQueue| >= blockSize {
              DoUpdateQueue();
            }
          }
        }
      } else {
        table := table - {fd.path};
        alerts := alerts + [Deleted(fd.path)];
      }
    }

    /** An observation of a path that has none. */
    method HandleUnlisted(fd: FileData)
      requires Valid() && fd.path !in table
      modifies this
      ensures View() == Unlisted(old(View()), fd, blockSize)
    {
      hide Less, Sorted, Put, NewRow;
      if fd.present {
        if !inScan {
          Insert(fd);
        } else {
          PutSorted(insertSet, fd);
          PutPaths(insertSet, fd);
          insertSet := Put(insertSet, fd);
          if |insertSet| >= blockSize {
            DoInsertSet();
          }
        }
      }
    }

    /** The directory walk is over: queue phase 2, then catch up on deferred work. */
    method HandleMid() returns (names: seq<string>)
      requires Valid()
      modifies this
      ensures View() == FlushUpdates(FlushInserts(old(View()).(events := old(events) + Phase2(names), inScan := false)))
      ensures Lists(names, Unscanned(old(table)))
    {
      hide Less, Sorted, FlushInserts, FlushUpdates, Deferred;
      names := SelectNonScanned();
      QueuePhase2(names);
      inScan := false;
      DoInsertSet();
      DoUpdateQueue();
    }

    /** One round of the loop; `names` is what phase 2 selected. */
    method Handle(item: Item) returns (names: seq<string>)
      requires Valid() && !stopped
      modifies this
      ensures Valid() && View() == Step(old(View()), item, names, blockSize)
      ensures item == Special(Mid) ==> Lists(names, Unscanned(old(table)))
    {
      hide Less, Sorted, Known, Unlisted, FlushInserts, FlushUpdates, Deferred;
      names := [];
      ghost var s := View();
      match item {
        case Kill =>
          alerts := alerts + [KillMessage];
          stopped := true;
        case Special(Start) =>
          table := Unmarked(table);
          inScan := true;
        case Special(Mid) =>
          names := HandleMid();
        case Special(End) =>
          scanIsRunning := false;
        case Seen(None, _) =>
        case Seen(Some(fd), force) =>
          if fd.path in table {
            HandleKnown(fd, force);
          } else {
            HandleUnlisted(fd);
          }
      }
      StepKeeps(s, item, names, blockSize);
    }
  }
}
