/** What each element of the file-data queue does to the alert task, written out: which alerts
    it raises, which fields a row gets, and when deferred work is caught up on. */
module DiskscanEffects {
  import opened Optional
  import opened Diskscan

  /** Something about an object is not as in its row: the owner, size, mode or kind, the content
      of a file or the target of a link if it was looked at. */
  predicate Different(row: Row, fd: FileData) {
    || row.user != fd.user || row.group != fd.group || row.size != fd.size || row.mode != fd.mode || row.kind != fd.kind
    || (fd.contentChecked && fd.kind == File && fd.sha256 != row.sha256)
    || (fd.contentChecked && fd.kind == Link && fd.target != row.target)
  }

  /** An object that has a row is seen and is different: the row takes over everything but a
      checksum that was not computed, it counts as seen, and the change is reported. */
  lemma ChangedEffect(s: Alerter, fd: FileData, force: bool, names: seq<string>, blockSize: nat)
    requires fd.path in s.table && fd.present && Different(s.table[fd.path], fd)
    ensures var sha256 := if fd.contentChecked then fd.sha256 else s.table[fd.path].sha256;
      var row := Row(fd.user, fd.group, fd.size, fd.inode, fd.mode,
                     fd.mtime, fd.ctime, fd.kind, sha256, fd.target, true);
      Step(s, Seen(Some(fd), force), names, blockSize)
        == s.(table := s.table[fd.path := row], alerts := s.alerts + [Changed(fd.path)])
  {
  }

  /** It is not different: no alert. Only a forced look marks the row, during the walk later. */
  lemma SameEffect(s: Alerter, fd: FileData, force: bool, names: seq<string>, blockSize: nat)
    requires fd.path in s.table && fd.present && !Different(s.table[fd.path], fd)
    ensures var s' := Step(s, Seen(Some(fd), force), names, blockSize);
      if !force then s' == s
      else if !s.inScan then s' == s.(table := s.table[fd.path := s.table[fd.path].(scanned := true)])
      else if |s.updateQueue| + 1 < blockSize then s' == s.(updateQueue := s.updateQueue + [fd.path])
      else s' == s.(table := s'.table, updateQueue := []) && OnlyMarked(s.table, s'.table, s.updateQueue + [fd.path])
  {
    hide AllMarked;
    AllMarkedRows(s.table, s.updateQueue + [fd.path]);
  }

  /** The same rows, those with these paths marked. */
  ghost predicate OnlyMarked(t: Table, t': Table, paths: seq<string>) {
    t'.Keys == t.Keys && forall p :: p in t ==> t'[p] == if p in paths then t[p].(scanned := true) else t[p]
  }

  /** Nothing is there: a row is deleted and reported, otherwise nothing happens. */
  lemma GoneEffect(s: Alerter, fd: FileData, force: bool, names: seq<string>, blockSize: nat)
    requires !fd.present
    ensures Step(s, Seen(Some(fd), force), names, blockSize) ==
      if fd.path in s.table then s.(table := s.table - {fd.path}, alerts := s.alerts + [Deleted(fd.path)]) else s
  {
  }

  /** An alert about an object that has a row is raised exactly when it is gone or different. */
  lemma AlertIff(s: Alerter, fd: FileData, force: bool, names: seq<string>, blockSize: nat)
    requires fd.path in s.table
    ensures Step(s, Seen(Some(fd), force), names, blockSize).alerts == s.alerts +
      if !fd.present then [Deleted(fd.path)] else if Different(s.table[fd.path], fd) then [Changed(fd.path)] else []
  {
    hide Step, Different;
    if !fd.present {
      GoneEffect(s, fd, force, names, blockSize);
    } else if Different(s.table[fd.path], fd) {
      ChangedEffect(s, fd, force, names, blockSize);
    } else {
      SameEffect(s, fd, force, names, blockSize);
    }
  }

  // ----- new rows

  /** The row of an object that was seen, without a checksum if its content was not looked at. */
  ghost predicate IsNewRow(row: Row, fd: FileData) {
    row == Row(fd.user, fd.group, fd.size, fd.inode, fd.mode, fd.mtime, fd.ctime, fd.kind,
               if fd.contentChecked then fd.sha256 else "not computed", fd.target, true)
  }

  /** An object without a row is seen outside the walk: it gets one and is reported. */
  lemma NewEffect(s: Alerter, fd: FileData, force: bool, names: seq<string>, blockSize: nat)
    requires fd.path !in s.table && fd.present && !s.inScan
    ensures var s' := Step(s, Seen(Some(fd), force), names, blockSize);
      && s' == s.(table := s'.table, alerts := s.alerts + [New(fd.path)])
      && fd.path in s'.table && IsNewRow(s'.table[fd.path], fd) && s'.table == s.table[fd.path := s'.table[fd.path]]
  {
  }

  /** The elements of a batch, in the order of their paths. */
  ghost predicate Ascending(batch: seq<FileData>) {
    forall i, j :: 0 <= i < j < |batch| ==> Precedes(batch[i].path, batch[j].path)
  }

  /** The order of strings: by the first character that differs, a prefix first. */
  ghost predicate Precedes(a: string, b: string) { exists k: nat :: FirstDifference(a, b, k) }

  predicate FirstDifference(a: string, b: string, k: nat) {
    k <= |a| && k < |b| && a[..k] == b[..k] && (k == |a| || a[k] < b[k])
  }

  lemma {:induction false} LessMeans(a: string, b: string)
    ensures Less(a, b) <==> Precedes(a, b)
  {
    if a != [] && b != [] && a[0] == b[0] {
      LessMeans(a[1..], b[1..]);
      if k: nat :| FirstDifference(a[1..], b[1..], k) {
        assert a[..k + 1] == [a[0]] + a[1..][..k] && b[..k + 1] == [b[0]] + b[1..][..k];
        assert FirstDifference(a, b, k + 1);
      }
      if k: nat :| FirstDifference(a, b, k) {
        assert k > 0;
        assert a[1..][..k - 1] == a[..k][1..] && b[1..][..k - 1] == b[..k][1..];
        assert FirstDifference(a[1..], b[1..], k - 1);
      }
    } else {
      StartsMeans(a, b);
    }
  }

  lemma StartsMeans(a: string, b: string)
    requires a == [] || b == [] || a[0] != b[0]
    ensures Less(a, b) <==> Precedes(a, b)
  {
    if b != [] && (a == [] || a[0] < b[0]) {
      assert FirstDifference(a, b, 0);
    }
    forall k: nat | FirstDifference(a, b, k)
      ensures k == 0
    {
      SamePrefix(a, b, k);
    }
  }

  lemma SamePrefix(a: string, b: string, k: nat)
    requires k <= |a| && k <= |b| && a[..k] == b[..k]
    ensures k > 0 ==> a[0] == b[0]
  {
    assert k > 0 ==> a[..k][0] == b[..k][0];
  }

  lemma SortedAscends(batch: seq<FileData>)
    requires Sorted(batch)
    ensures Ascending(batch)
  {
    forall i, j | 0 <= i < j < |batch|
      ensures Precedes(batch[i].path, batch[j].path)
    {
      LessMeans(batch[i].path, batch[j].path);
    }
  }

  /** A batch of new objects is reported one by one and inserted. */
  ghost predicate Flushed(s: Alerter, s': Alerter, batch: seq<FileData>) {
    && |s'.alerts| == |s.alerts| + |batch| && s'.alerts[..|s.alerts|] == s.alerts
    && (forall i :: 0 <= i < |batch| ==> s'.alerts[|s.alerts| + i] == New(batch[i].path))
    && s'.table.Keys == s.table.Keys + Paths(batch)
    && (forall i :: 0 <= i < |batch| ==> batch[i].path in s'.table && IsNewRow(s'.table[batch[i].path], batch[i]))
  }

  lemma {:induction false} NewAlertsAre(batch: seq<FileData>)
    ensures forall i :: 0 <= i < |batch| ==> NewAlerts(batch)[i] == New(batch[i].path)
  {
    if batch != [] {
      NewAlertsAre(batch[1..]);
    }
  }

  lemma {:induction false} InsertedAre(t: Table, batch: seq<FileData>)
    requires Deferred(t, batch)
    ensures forall i :: 0 <= i < |batch| ==>
      batch[i].path in Inserted(t, batch) && IsNewRow(Inserted(t, batch)[batch[i].path], batch[i])
    decreases |batch|
  {
    hide Less, Sorted;
    if batch != [] {
      var t' := OneMore(t, batch);
      InsertedRows(t', batch[1..]);
      InsertedAre(t', batch[1..]);
    }
  }

  lemma FlushIs(s: Alerter)
    requires Deferred(s.table, s.insertSet)
    ensures var s' := FlushInserts(s);
      && Flushed(s, s', s.insertSet) && s' == s.(table := s'.table, alerts := s'.alerts, insertSet := [])
      && forall p :: p in s.table ==> s'.table[p] == s.table[p]
  {
    hide Less, Sorted, Inserted, NewAlerts, IsNewRow;
    InsertedRows(s.table, s.insertSet);
    InsertedAre(s.table, s.insertSet);
    NewAlertsAre(s.insertSet);
  }

  lemma {:induction false} PutIs(s: seq<FileData>, fd: FileData)
    requires Sorted(s)
    ensures forall x :: x in Put(s, fd) <==> x == fd || (x in s && x.path != fd.path)
  {
    if s != [] {
      SortedTail(s);
      LessIrreflexive(s[0].path);
      forall x | x in s[1..]
        ensures Less(s[0].path, x.path)
      {
        var i :| 0 <= i < |s[1..]| && s[1..][i] == x;
        assert x.path in Paths(s[1..]);
      }
      assert s == [s[0]] + s[1..];
      if Less(fd.path, s[0].path) {
        LessIrreflexive(fd.path);
        forall x | x in s
          ensures x.path != fd.path
        {
          if x in s[1..] {
            LessTransitive(fd.path, s[0].path, x.path);
          }
        }
      } else if s[0].path != fd.path {
        PutIs(s[1..], fd);
      }
    }
  }

  /** An object without a row is seen during the walk: it joins the waiting ones, in place of
      an older observation of its path, and all of them are inserted when the block is full. */
  lemma DeferredEffect(s: Alerter, fd: FileData, force: bool, names: seq<string>, blockSize: nat)
    returns (batch: seq<FileData>)
    requires Consistent(s) && fd.path !in s.table && fd.present && s.inScan
    ensures Ascending(batch) && forall x :: x in batch <==> x == fd || (x in s.insertSet && x.path != fd.path)
    ensures var s' := Step(s, Seen(Some(fd), force), names, blockSize);
      if |batch| < blockSize then s' == s.(insertSet := batch)
      else
        && Flushed(s, s', batch) && s' == s.(table := s'.table, alerts := s'.alerts, insertSet := [])
        && forall p :: p in s.table ==> s'.table[p] == s.table[p]
  {
    hide Less, Sorted, Put, FlushInserts, IsNewRow, Precedes;
    batch := Put(s.insertSet, fd);
    PutIs(s.insertSet, fd);
    PutSorted(s.insertSet, fd);
    PutPaths(s.insertSet, fd);
    SortedAscends(batch);
    FlushIs(s.(insertSet := batch));
  }

  // ----- marks

  lemma {:induction false} Phase2Is(names: seq<string>)
    ensures |Phase2(names)| == |names| + 1 && Phase2(names)[|names|] == Marker(End)
    ensures forall i :: 0 <= i < |names| ==> Phase2(names)[i] == Path(names[i], true)
  {
    if names != [] {
      Phase2Is(names[1..]);
    }
  }

  /** The start of a scan unmarks all rows and changes nothing else about them. */
  lemma StartEffect(s: Alerter, names: seq<string>, blockSize: nat)
    ensures var s' := Step(s, Special(Start), names, blockSize);
      && s' == s.(table := s'.table, inScan := true) && s'.table.Keys == s.table.Keys
      && forall p :: p in s.table ==> s'.table[p] == s.table[p].(scanned := false)
  {
  }

  /** The end of a scan tells the main thread; a kill element is passed on; without data
      nothing happens. */
  lemma OtherEffects(s: Alerter, force: bool, names: seq<string>, blockSize: nat)
    ensures Step(s, Special(End), names, blockSize) == s.(scanIsRunning := false)
    ensures Step(s, Kill, names, blockSize) == s.(alerts := s.alerts + [KillMessage], stopped := true)
    ensures Step(s, Seen(None, force), names, blockSize) == s
  {
  }

  /** The middle of a scan queues a forced look at every path selected and then the end mark;
      the waiting objects are inserted, then the waiting marks are set. */
  lemma MidEffect(s: Alerter, names: seq<string>, blockSize: nat)
    requires Consistent(s)
    ensures var s' := Step(s, Special(Mid), names, blockSize);
      && !s'.inScan && s'.insertSet == [] && s'.updateQueue == []
      && s'.scanIsRunning == s.scanIsRunning && s'.stopped == s.stopped
      && |s'.events| == |s.events| + |names| + 1 && s'.events[..|s.events|] == s.events
      && s'.events[|s.events| + |names|] == Marker(End)
      && (forall i :: 0 <= i < |names| ==> s'.events[|s.events| + i] == Path(names[i], true))
      && Ascending(s.insertSet) && Flushed(s, s', s.insertSet)
      && forall p :: p in s.table ==>
           s'.table[p] == if p in s.updateQueue then s.table[p].(scanned := true) else s.table[p]
  {
    hide Less, Sorted, FlushInserts, AllMarked, Phase2, IsNewRow, Precedes;
    var s1 := s.(events := s.events + Phase2(names), inScan := false);
    SortedAscends(s.insertSet);
    Phase2Is(names);
    FlushIs(s1);
    var s2 := FlushInserts(s1);
    AllMarkedRows(s2.table, s.updateQueue);
    forall i | 0 <= i < |s.insertSet|
      ensures IsNewRow(AllMarked(s2.table, s.updateQueue)[s.insertSet[i].path], s.insertSet[i])
    {
      StaysNew(s2.table[s.insertSet[i].path], s.insertSet[i]);
    }
  }

  lemma StaysNew(row: Row, fd: FileData)
    requires IsNewRow(row, fd)
    ensures IsNewRow(row.(scanned := true), fd)
  {
  }

  /** No block of deferred work is ever full between two elements. */
  ghost predicate BlocksNotFull(s: Alerter, blockSize: nat) {
    |s.insertSet| < blockSize && |s.updateQueue| < blockSize
  }

  lemma BlocksStay(s: Alerter, item: Item, names: seq<string>, blockSize: nat)
    requires Consistent(s) && BlocksNotFull(s, blockSize)
    ensures BlocksNotFull(Step(s, item, names, blockSize), blockSize)
  {
    hide Less, Sorted, Put, Inserted, AllMarked, NewAlerts, Phase2, Differs, UpdatedRow;
  }
}
