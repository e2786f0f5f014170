/** The script container: entries arrive one by one and, with `deletesFirst`,
    deletions are inserted ahead of the insertions of the current run. */
module ScriptContainer {
  import opened Scripts

  lemma OfKindSnoc<T>(s: seq<SesElem<T>>, e: SesElem<T>, kind: EditKind)
    ensures OfKind(s + [e], kind) == OfKind(s, kind) + if e.kind == kind then [e] else []
  {
    assert (s + [e])[..|s|] == s;
  }

  lemma LastCommonSnoc<T>(s: seq<SesElem<T>>, e: SesElem<T>)
    ensures LastCommon(s + [e]) == if e.kind == Common then |s| + 1 else LastCommon(s)
  {
    assert (s + [e])[..|s|] == s;
  }

  /** The entries ahead of which a further insertion of the current run would stand. */
  function DeletePoint<T>(calls: seq<SesElem<T>>): nat {
    var n := LastCommon(calls);
    (if n == 0 then 0 else |DeletesMovedFirst(calls[..n - 1])| + 1) + |OfKind(calls[n..], Delete)|
  }

  /** The deletes-first order up to and including the last common entry. */
  function MovedHead<T>(calls: seq<SesElem<T>>): seq<SesElem<T>> {
    var n := LastCommon(calls);
    if n == 0 then [] else DeletesMovedFirst(calls[..n - 1]) + [calls[n - 1]]
  }

  lemma MovedSplit<T>(calls: seq<SesElem<T>>)
    ensures var run := calls[LastCommon(calls)..];
      && DeletesMovedFirst(calls) == MovedHead(calls) + OfKind(run, Delete) + OfKind(run, Add)
      && DeletePoint(calls) == |MovedHead(calls) + OfKind(run, Delete)|
  {
    var run := calls[LastCommon(calls)..];
    assert LastCommon(calls) == 0 ==> run == calls;
    assert DeletesMovedFirst(calls) == MovedHead(calls) + MovedRun(run);
    assert MovedHead(calls) + MovedRun(run) == MovedHead(calls) + OfKind(run, Delete) + OfKind(run, Add);
  }

  lemma MovedSnocCommon<T>(calls: seq<SesElem<T>>, e: SesElem<T>)
    requires e.kind == Common
    ensures DeletesMovedFirst(calls + [e]) == DeletesMovedFirst(calls) + [e]
    ensures DeletePoint(calls + [e]) == |DeletesMovedFirst(calls)| + 1
  {
    LastCommonSnoc(calls, e);
    assert (calls + [e])[..|calls|] == calls && (calls + [e])[|calls| + 1..] == [];
    assert DeletesMovedFirst(calls + [e]) == (DeletesMovedFirst(calls) + [e]) + MovedRun<T>([]);
    assert MovedRun<T>([]) == [];
  }

  lemma MovedSnocEdit<T>(calls: seq<SesElem<T>>, e: SesElem<T>)
    requires e.kind != Common
    ensures var n, run := LastCommon(calls), calls[LastCommon(calls)..];
      && LastCommon(calls + [e]) == n && (calls + [e])[n..] == run + [e]
      && MovedHead(calls + [e]) == MovedHead(calls)
  {
    var n := LastCommon(calls);
    LastCommonSnoc(calls, e);
    assert n > 0 ==> (calls + [e])[..n - 1] == calls[..n - 1];
  }

  lemma Splice<E>(head: seq<E>, d: seq<E>, a: seq<E>, e: E)
    ensures (head + d + a)[..|head + d|] == head + d && (head + d + a)[|head + d|..] == a
    ensures head + (d + [e]) + a == (head + d) + [e] + a
    ensures head + d + (a + [e]) == (head + d + a) + [e]
  {
  }

  lemma MovedSnocDelete<T>(calls: seq<SesElem<T>>, e: SesElem<T>)
    requires e.kind == Delete
    ensures var moved, i := DeletesMovedFirst(calls), DeletePoint(calls);
      && i <= |moved|
      && DeletesMovedFirst(calls + [e]) == moved[..i] + [e] + moved[i..]
      && DeletePoint(calls + [e]) == i + 1
  {
    var run := calls[LastCommon(calls)..];
    MovedSplit(calls);
    MovedSnocEdit(calls, e);
    MovedSplit(calls + [e]);
    OfKindSnoc(run, e, Delete);
    OfKindSnoc(run, e, Add);
    assert OfKind(run + [e], Add) == OfKind(run, Add);
    Splice(MovedHead(calls), OfKind(run, Delete), OfKind(run, Add), e);
  }

  lemma MovedSnocAdd<T>(calls: seq<SesElem<T>>, e: SesElem<T>)
    requires e.kind == Add
    ensures DeletesMovedFirst(calls + [e]) == DeletesMovedFirst(calls) + [e]
    ensures DeletePoint(calls + [e]) == DeletePoint(calls)
  {
    var run := calls[LastCommon(calls)..];
    MovedSplit(calls);
    MovedSnocEdit(calls, e);
    MovedSplit(calls + [e]);
    OfKindSnoc(run, e, Delete);
    OfKindSnoc(run, e, Add);
    assert OfKind(run + [e], Delete) == OfKind(run, Delete);
    Splice(MovedHead(calls), OfKind(run, Delete), OfKind(run, Add), e);
  }

  /** Where one more entry lands in the deletes-first order. */
  lemma MovedSnoc<T>(calls: seq<SesElem<T>>, e: SesElem<T>)
    ensures var moved, i := DeletesMovedFirst(calls), DeletePoint(calls);
      && i <= |moved|
      && DeletesMovedFirst(calls + [e])
         == (if e.kind == Delete then moved[..i] + [e] + moved[i..] else moved + [e])
      && DeletePoint(calls + [e])
         == (match e.kind case Delete => i + 1 case Common => |moved| + 1 case Add => i)
  {
    MovedSplit(calls);
    match e.kind {
      case Delete => MovedSnocDelete(calls, e);
      case Common => MovedSnocCommon(calls, e);
      case Add => MovedSnocAdd(calls, e);
    }
  }

  lemma AllKindSnoc<T>(s: seq<SesElem<T>>, e: SesElem<T>, kind: EditKind)
    ensures AllKind(s + [e], kind) <==> AllKind(s, kind) && e.kind == kind
  {
    assert (s + [e])[|s|] == e;
    assert AllKind(s + [e], kind) ==> forall i :: 0 <= i < |s| ==> s[i] == (s + [e])[i];
  }

  class Ses<T> {
    var sequence: seq<SesElem<T>>
    var onlyAdd: bool
    var onlyDelete: bool
    var onlyCopy: bool
    var nextDeleteIdx: nat
    const deletesFirst: bool
    /** Every entry ever handed to AddSequence, in call order. */
    ghost var calls: seq<SesElem<T>>

    ghost predicate Valid()
      reads this
    {
      && sequence == (if deletesFirst then DeletesMovedFirst(calls) else calls)
      && (deletesFirst ==> nextDeleteIdx == DeletePoint(calls))
      && (onlyAdd <==> AllKind(calls, Add))
      && (onlyDelete <==> AllKind(calls, Delete))
      && (onlyCopy <==> AllKind(calls, Common))
    }

    constructor (moveDel: bool)
      ensures Valid() && calls == [] && deletesFirst == moveDel
    {
      sequence, onlyAdd, onlyDelete, onlyCopy := [], true, true, true;
      deletesFirst, nextDeleteIdx := moveDel, 0;
      calls := [];
    }

    method AddSequence(e: T, beforeIdx: int, afterIdx: int, kind: EditKind)
      requires Valid()
      modifies this
      ensures Valid() && calls == old(calls) + [SesElem(e, beforeIdx, afterIdx, kind)]
    {
      hide DeletesMovedFirst, DeletePoint, AllKind;
      var pe := SesElem(e, beforeIdx, afterIdx, kind);
      MovedSnoc(calls, pe);
      AllKindSnoc(calls, pe, Add);
      AllKindSnoc(calls, pe, Delete);
      AllKindSnoc(calls, pe, Common);
      if !deletesFirst {
        sequence := sequence + [pe];
      }
      match kind {
        case Delete =>
          onlyCopy, onlyAdd := false, false;
          if deletesFirst {
            sequence := sequence[..nextDeleteIdx] + [pe] + sequence[nextDeleteIdx..];
            nextDeleteIdx := nextDeleteIdx + 1;
          }
        case Common =>
          onlyAdd, onlyDelete := false, false;
          if deletesFirst {
            sequence := sequence + [pe];
            nextDeleteIdx := |sequence|;
          }
        case Add =>
          onlyDelete, onlyCopy := false, false;
          if deletesFirst {
            sequence := sequence + [pe];
          }
      }
      calls := calls + [pe];
    }

    predicate IsChange()
      reads this
    {
      !onlyCopy
    }

    predicate IsOnlyOneOperation()
      reads this
    {
      onlyAdd || onlyDelete || onlyCopy
    }
  }

  /** Whatever the mode, the stored entries say the same as the calls that made them,
      and with `deletesFirst` no deletion directly follows an insertion. */
  lemma StoredMeansCalled<T>(ses: Ses<T>)
    requires ses.Valid()
    ensures Before(ses.sequence) == Before(ses.calls)
    ensures After(ses.sequence) == After(ses.calls)
    ensures Commons(ses.sequence) == Commons(ses.calls)
    ensures EditCount(ses.sequence) == EditCount(ses.calls)
    ensures ses.deletesFirst ==> DeletesBeforeAdds(ses.sequence)
  {
    if ses.deletesFirst {
      MovingKeepsMeaning(ses.calls, {Delete, Common});
      MovingKeepsMeaning(ses.calls, {Add, Common});
      MovingKeepsMeaning(ses.calls, {Common});
      MovingKeepsMeaning(ses.calls, {Delete});
      MovingKeepsMeaning(ses.calls, {Add});
      MovedInOrder(ses.calls);
    }
  }
}
