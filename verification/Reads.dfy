/**
 * Reading requests among the writing ones: on MySQL a session that reads holds its collection in
 * share mode, on Spanner its transaction sees the tables as they were when it began. Either way
 * the time a client is told and the rows it gets are of one state.
 */
module Reads {
  import opened Wrappers
  import opened Bso
  import opened Store
  import opened Footprint
  import opened Protocol
  import opened Versions
  import opened RowRuns

  /**
   * A session that reads collection `k`: what its lock has cached, Spanner's view of the tables, and
   * what it has found out so far.
   */
  datatype Reader = Reader(k: Key, cached: Option<int>, view: Option<Tables>, modified: Option<int>, rows: Option<Rows>)

  datatype Shared = Shared(s: State, readers: map<int, Reader>)

  datatype Move =
    | Write(l: Label)
    | LockForRead(rid: int, u: U64, c: int)
    | ReadTime(rid: int)
    | ReadRows(rid: int)
    | Answer(rid: int)

  /** A lock in share mode and a lock for writing exclude each other. */
  predicate Unread(h: Shared, k: Key) { forall rid | rid in h.readers :: h.readers[rid].k != k }

  predicate UnreadUser(h: Shared, user: int) { forall rid | rid in h.readers :: h.readers[rid].k.0 != user }

  predicate Allowed(h: Shared, m: Move) {
    match m
    case Write(l) =>
      && Enabled(h.s, l)
      && (h.s.b.Mysql? && l.Lock? ==> Unread(h, KeyFor(h.s.b, h.s.sessions[l.sid].r)))
      && (h.s.b.Mysql? && l.Wipe? ==> UnreadUser(h, StoredUser(h.s.b, l.u)))
    case LockForRead(rid, u, c) =>
      rid !in h.readers && c >= 1 && Safe(h.s.b, u) && (h.s.b.Mysql? ==> Free(h.s, (StoredUser(h.s.b, u), c)))
    case ReadTime(rid) => rid in h.readers
    case ReadRows(rid) => rid in h.readers
    case Answer(rid) => rid in h.readers
  }

  /** The tables that a reader sees. */
  function Seen(h: Shared, reader: Reader): Tables { if reader.view.Some? then reader.view.value else h.s.t }

  /** The time that X-Last-Modified is made of: cached by the lock, or queried. */
  function TimeFor(h: Shared, reader: Reader): int {
    var queried := Visible(h.s.b, Lookup(Seen(h, reader).versions, reader.k));
    var version := if reader.cached.Some? then reader.cached else queried;
    if version.Some? then version.value else 0
  }

  function NewReader(h: Shared, k: Key): Reader {
    if h.s.b.Mysql? then Reader(k, Lookup(h.s.t.versions, k), None, None, None)
    else Reader(k, None, Some(h.s.t), None, None)
  }

  function Moved(h: Shared, m: Move): Shared
    requires Allowed(h, m)
  {
    match m
    case Write(l) => h.(s := Step(h.s, l))
    case LockForRead(rid, u, c) => h.(readers := h.readers[rid := NewReader(h, (StoredUser(h.s.b, u), c))])
    case ReadTime(rid) =>
      h.(readers := h.readers[rid := h.readers[rid].(modified := Some(TimeFor(h, h.readers[rid])))])
    case ReadRows(rid) =>
      var rows := CollectionAt(Seen(h, h.readers[rid]), h.readers[rid].k).rows;
      h.(readers := h.readers[rid := h.readers[rid].(rows := Some(rows))])
    case Answer(rid) => h.(readers := h.readers - {rid})
  }

  ghost predicate IsSharedRun(run: seq<Shared>, moves: seq<Move>) {
    && |run| == |moves| + 1
    && Init(run[0].s) && run[0].readers == map[]
    && forall i | 0 <= i < |moves| :: Allowed(run[i], moves[i]) && run[i + 1] == Moved(run[i], moves[i])
  }

  // ----- what every move keeps -----

  /** What the reader has found out is what the collection is in the given state. */
  predicate Agrees(reader: Reader, s: State) {
    && (reader.cached.Some? ==> VersionIn(s, reader.k) == reader.cached)
    && (reader.modified.Some? ==> reader.modified.value == ModifiedIn(s, reader.k))
    && (reader.rows.Some? ==> reader.rows.value == RowsIn(s, reader.k))
    && (reader.view.Some? ==> reader.view.value == s.t)
  }

  /** A reader on MySQL agrees with the present, and nobody is writing to its collection. */
  predicate ReaderInv(h: Shared, reader: Reader) {
    && reader.k.1 >= 1 && (reader.view.Some? <==> h.s.b.Spanner?)
    && (h.s.b.Mysql? ==> Agrees(reader, h.s) && Free(h.s, reader.k))
  }

  ghost predicate SharedInv(h: Shared) {
    Inv(h.s) && forall rid | rid in h.readers :: ReaderInv(h, h.readers[rid])
  }

  lemma SameCollectionAgrees(reader: Reader, s: State, s': State)
    requires Agrees(reader, s) && s'.b == s.b && reader.view.None?
    requires CollectionAt(s'.t, reader.k) == CollectionAt(s.t, reader.k)
    ensures Agrees(reader, s')
  {}

  /** A step of the writers that is allowed leaves the collection of a reader on MySQL alone. */
  lemma WriteKeepsCollection(h: Shared, l: Label, rid: int)
    requires Inv(h.s) && Allowed(h, Write(l)) && h.s.b.Mysql? && rid in h.readers && ReaderInv(h, h.readers[rid])
    ensures var k := h.readers[rid].k; CollectionAt(Step(h.s, l).t, k) == CollectionAt(h.s.t, k)
  {
    var reader := h.readers[rid];
    if l.Commit? {
      assert Holding(h.s, l.sid);
      CommitKeepsOthers(h.s, l.sid, reader.k);
    } else if l.Wipe? {
      WipeAt(h.s.b, h.s.t, l.u, reader.k);
    }
  }

  lemma WriteKeepsFree(h: Shared, l: Label, rid: int)
    requires Allowed(h, Write(l)) && h.s.b.Mysql? && rid in h.readers && Free(h.s, h.readers[rid].k)
    ensures Free(Step(h.s, l), h.readers[rid].k)
  {
    var s' := Step(h.s, l);
    forall sid | sid in s'.sessions && Holding(s', sid)
      ensures KeyFor(s'.b, s'.sessions[sid].r) != h.readers[rid].k
    {
      if sid in h.s.sessions && !(l.Lock? && l.sid == sid) { assert Holding(h.s, sid); }
    }
  }

  lemma WriteKeepsReaders(h: Shared, l: Label)
    requires SharedInv(h) && Allowed(h, Write(l))
    ensures SharedInv(Moved(h, Write(l)))
  {
    StepKeepsInv(h.s, l);
    var h' := Moved(h, Write(l));
    forall rid | rid in h'.readers
      ensures ReaderInv(h', h'.readers[rid])
    {
      var reader := h.readers[rid];
      assert ReaderInv(h, reader);
      if h.s.b.Mysql? {
        WriteKeepsCollection(h, l, rid);
        WriteKeepsFree(h, l, rid);
        SameCollectionAgrees(reader, h.s, h'.s);
      }
    }
  }

  lemma MoveKeepsShared(h: Shared, m: Move)
    requires SharedInv(h) && Allowed(h, m)
    ensures SharedInv(Moved(h, m))
  {
    if m.Write? {
      WriteKeepsReaders(h, m.l);
    } else {
      var h' := Moved(h, m);
      forall rid | rid in h'.readers
        ensures ReaderInv(h', h'.readers[rid])
      {
        if rid in h.readers { assert ReaderInv(h, h.readers[rid]); }
      }
    }
  }

  lemma {:induction false} RunKeepsShared(run: seq<Shared>, moves: seq<Move>, n: nat)
    requires IsSharedRun(run, moves) && n < |run|
    ensures SharedInv(run[n]) && run[n].s.b == run[0].s.b
  {
    if n > 0 {
      RunKeepsShared(run, moves, n - 1);
      MoveKeepsShared(run[n - 1], moves[n - 1]);
    }
  }

  // ----- what a reader gets -----

  /** Spanner: a reader goes on agreeing with the state whose tables it sees. */
  lemma MoveKeepsAgreeing(h: Shared, m: Move, rid: int, past: State)
    requires Allowed(h, m) && rid in h.readers && rid in Moved(h, m).readers
    requires h.readers[rid].view.Some? && past.b == h.s.b && Agrees(h.readers[rid], past)
    ensures Agrees(Moved(h, m).readers[rid], past)
  {}

  lemma NewReaderAgrees(h: Shared, m: Move, rid: int)
    requires Allowed(h, m) && rid !in h.readers && rid in Moved(h, m).readers && h.s.b.Spanner?
    ensures Agrees(Moved(h, m).readers[rid], Moved(h, m).s)
  {}

  /**
   * In any interleaving of readers and writers, what a reader has found out, the time and the rows
   * of the collection, is what they were in one and the same state while it has been at work.
   */
  lemma {:induction false} ReadsOneState(run: seq<Shared>, moves: seq<Move>, n: nat, rid: int) returns (i: nat)
    requires IsSharedRun(run, moves) && n < |run| && rid in run[n].readers
    ensures i <= n && (forall j | i <= j <= n :: rid in run[j].readers) && Agrees(run[n].readers[rid], run[i].s)
  {
    RunKeepsShared(run, moves, n);
    assert ReaderInv(run[n], run[n].readers[rid]);
    if run[n].s.b.Mysql? {
      i := n;
    } else {
      var h := run[n - 1];
      RunKeepsShared(run, moves, n - 1);
      if rid in h.readers {
        i := ReadsOneState(run, moves, n - 1, rid);
        RunKeepsShared(run, moves, i);
        assert ReaderInv(h, h.readers[rid]);
        MoveKeepsAgreeing(h, moves[n - 1], rid, run[i].s);
      } else {
        i := n;
        NewReaderAgrees(h, moves[n - 1], rid);
      }
    }
  }

  /** The writers among the readers are a run of their own, so that all that holds in runs holds here. */
  lemma {:induction false} WritersRun(run: seq<Shared>, moves: seq<Move>, n: nat)
      returns (inner: seq<State>, labels: seq<Label>)
    requires IsSharedRun(run, moves) && n < |run|
    ensures IsRun(inner, labels) && inner[|labels|] == run[n].s
  {
    if n == 0 {
      inner, labels := [run[0].s], [];
    } else {
      inner, labels := WritersRun(run, moves, n - 1);
      var m := moves[n - 1];
      if m.Write? {
        Extend(inner, labels, m.l);
        inner, labels := inner + [Step(run[n - 1].s, m.l)], labels + [m.l];
      }
    }
  }
}
