/** Preconditions on a single record: when the second of two requests for it is carried out. */
module Records {
  import opened Wrappers
  import opened Bso
  import opened Upsert
  import opened Collation
  import opened Store
  import opened Handlers
  import opened Footprint
  import opened Protocol
  import opened Versions
  import opened BatchRuns
  import opened Backends
  import opened GenuineRuns
  import opened RowRuns
  import SpannerPost

  function RecordIn(s: State, k: Key, id: string): Option<Row> { RowOf(s.b, RowsIn(s, k), id) }

  /** The time that a precondition on the record is checked against; only Spanner passes over expired rows. */
  function RecordTime(s: State, k: Key, id: string, clock: int): int {
    var row := RecordIn(s, k, id);
    if row.Some? && (s.b.Spanner? ==> row.value.expiry > clock) then row.value.modified else 0
  }

  /** The session of the step asked for its request to be carried out only if the record is not newer than `header`. */
  predicate GuardedRecord(s: State, l: Label, k: Key, id: string, header: int) {
    && l.Commit? && Enabled(s, l)
    && KeyFor(s.b, s.sessions[l.sid].r) == k
    && s.sessions[l.sid].r.bso == Some(id) && s.sessions[l.sid].r.precondition == IfUnmodifiedSince(header)
  }

  function ClockOf(s: State, l: Label): int
    requires l.Commit? && Enabled(s, l)
  {
    s.sessions[l.sid].phase.env.checkClock
  }

  /** What was checked when the session acted still holds when it commits. */
  lemma RecordCheckHoldsAtCommit(s: State, l: Label, k: Key, id: string, header: int)
    requires Inv(s) && GuardedRecord(s, l, k, id, header)
    ensures var done := DoneOf(s.sessions[l.sid]);
      if RecordTime(s, k, id, ClockOf(s, l)) > header
      then done.p == NOTHING && done.r.value.status == PreconditionFailed && Step(s, l).t == s.t
      else Passed(done)
  {
    var session := s.sessions[l.sid];
    assert SessionInv(s.b, s.t, session);
    CommitNothing(s.t);
    HandlePasses(session.phase.x, session.phase.env, session.r.action);
  }

  // ----- what a PUT makes of the record -----

  /** The rows after an upsert on the backend. */
  function PutOn(b: Backend, rows: Rows, ts: int, item: Item): Rows {
    if b.Mysql? then PutCollated(rows, ts, item) else PutBso(rows, ts, item)
  }

  lemma PutRows(s: State, l: Label, k: Key)
    requires Inv(s) && SessionsGenuine(s) && Carried(s, l, k) && s.sessions[l.sid].r.action.Put?
    ensures var ts, item := s.sessions[l.sid].ts, s.sessions[l.sid].r.action.item;
      RowsIn(Step(s, l), k) == PutOn(s.b, RowsIn(s, k), ts, item)
  {
    var session := s.sessions[l.sid];
    assert SessionInv(s.b, s.t, session) && GenuineSession(session);
    CommitLeavesRows(s, l.sid);
    PassedPut(session.phase.x, session.phase.env, session.phase.seen, session.r);
    PutOutcome(session.phase.x, session.phase.env, session.r.action.item);
  }

  lemma PassedPut(x: Context, env: Env, seen: Option<int>, r: Request)
    requires r.action.Put? && Passed(CheckThenAct(x, env, seen, r))
    ensures var call := PutCall(x, env, NOTHING, r.action.item);
      call.r.Ok? && CheckThenAct(x, env, seen, r).p == call.p
  {}

  lemma PutOutcome(x: Context, env: Env, item: Item)
    requires Sound(x) && PutCall(x, env, NOTHING, item).r.Ok? && Represented(x, env, x.found.rows, [item])
    ensures Outcome(x, PutCall(x, env, NOTHING, item).p) == Ok(PutOn(x.b, x.found.rows, x.ts, item))
  {
    if x.b.Spanner? {
      PostPending(x, env, [item]);
      assert [item][..0] == [];
      assert PutAll(x.found.rows, x.ts, [item]) == PutBso(x.found.rows, x.ts, item);
    }
  }

  lemma CollatedPutIsFound(rows: Rows, ts: int, item: Item, id: string)
    requires Same(item.id, id) && Apart(rows.Keys)
    ensures var prior := FindRow(rows, id);
      FindRow(PutCollated(rows, ts, item), id)
      == Some(if prior.Some? then UpdatedRow(prior.value, ts, item) else NewRow(ts, item))
  {
    FindsAlike(rows, item.id, id);
    PutKeepsApart(rows, ts, item);
    FindsUnderAny(PutCollated(rows, ts, item), item.id, id);
  }

  /** The record, under any id that the backend takes for it, is stamped unless it was there and only its ttl is set. */
  lemma PutStampsRecord(b: Backend, rows: Rows, ts: int, item: Item, id: string)
    requires SameText(b, item.id, id) && (b.Mysql? ==> Apart(rows.Keys))
    ensures var before, after := RowOf(b, rows, id), RowOf(b, PutOn(b, rows, ts, item), id);
      && after.Some?
      && after.value.modified == if before.Some? && !Modifies(item) then before.value.modified else ts
  {
    if b.Mysql? { CollatedPutIsFound(rows, ts, item, id); }
  }

  // ----- two writes -----

  /** The step commits a PUT of the record that leaves it with the session's timestamp. */
  predicate StampsRecord(s: State, l: Label, k: Key, id: string) {
    && Carried(s, l, k) && s.sessions[l.sid].r.action.Put?
    && var item := s.sessions[l.sid].r.action.item;
       SameText(s.b, item.id, id) && (Modifies(item) || RecordIn(s, k, id).None?)
  }

  /** .. or that only sets the ttl of a record that is there. */
  predicate ExtendsRecord(s: State, l: Label, k: Key, id: string) {
    && Carried(s, l, k) && s.sessions[l.sid].r.action.Put?
    && var item := s.sessions[l.sid].r.action.item;
       SameText(s.b, item.id, id) && !Modifies(item) && RecordIn(s, k, id).Some?
  }

  lemma PutLeavesRecord(s: State, l: Label, k: Key, id: string)
    requires Inv(s) && SessionsGenuine(s) && (s.b.Mysql? ==> Apart(RowsIn(s, k).Keys))
    requires StampsRecord(s, l, k, id) || ExtendsRecord(s, l, k, id)
    ensures var before, after := RecordIn(s, k, id), RecordIn(Step(s, l), k, id);
      && after.Some?
      && after.value.modified
         == if StampsRecord(s, l, k, id) then s.sessions[l.sid].ts else before.value.modified
  {
    PutRows(s, l, k);
    PutStampsRecord(s.b, RowsIn(s, k), s.sessions[l.sid].ts, s.sessions[l.sid].r.action.item, id);
  }

  /** A write of the ttl alone does not get in the way of other writers: the record keeps its time. */
  lemma ExtensionKeepsTime(run: seq<State>, labels: seq<Label>, k: Key, m: nat, id: string)
    requires IsRun(run, labels) && AllGenuine(run, labels) && m < |labels| && k.1 >= 1
    requires run[0].b.Mysql? ==> Apart(RowsIn(run[0], k).Keys)
    requires ExtendsRecord(run[m], labels[m], k, id)
    ensures RecordIn(run[m], k, id).Some? && RecordIn(run[m + 1], k, id).Some?
    ensures RecordIn(run[m + 1], k, id).value.modified == RecordIn(run[m], k, id).value.modified
  {
    RunRowsStep(run, labels, m, k);
    if run[0].b.Mysql? { RunKeepsApart(run, labels, m, k); }
    PutLeavesRecord(run[m], labels[m], k, id);
  }

  /** A row that was there in the rows that a write has left, and is now found as the record, is the one written. */
  lemma StillTheRecord(b: Backend, before: Rows, after: Rows, id: string, version: int)
    requires b.Mysql? ==> Apart(before.Keys) && Apart(after.Keys)
    requires Since(b, before, version, after) && RowOf(b, after, id).Some?
    requires RowOf(b, before, id).Some? && RowOf(b, before, id).value.modified == version
    ensures RowOf(b, after, id).value.modified >= version
  {
    var found := if b.Mysql? then StoredId(after, id).value else id;
    if after[found].modified < version {
      var key :| key in before && SameText(b, key, found) && before[key] == after[found].(expiry := before[key].expiry);
      if b.Mysql? { FindsUnderAny(before, key, id); }
    }
  }

  lemma RecordIsNewer(run: seq<State>, labels: seq<Label>, k: Key, i: nat, m: nat, n: nat, id: string)
    requires IsRun(run, labels) && AllGenuine(run, labels) && i <= m < n < |run| && k.1 >= 1 && Kept(run, k, i, n)
    requires run[0].b.Mysql? ==> Apart(RowsIn(run[0], k).Keys)
    requires StampsRecord(run[m], labels[m], k, id) && RecordIn(run[n], k, id).Some?
    ensures var modified := RecordIn(run[n], k, id).value.modified; modified > 0 && modified > ModifiedIn(run[i], k)
  {
    var b, ts := run[0].b, run[m].sessions[labels[m].sid].ts;
    RunRowsStep(run, labels, m, k);
    RunKeepsInv(run, labels, n);
    if b.Mysql? {
      RunKeepsApart(run, labels, m, k);
      RunKeepsApart(run, labels, m + 1, k);
      RunKeepsApart(run, labels, n, k);
    }
    PutLeavesRecord(run[m], labels[m], k, id);
    VersionStep(run[m], labels[m], k);
    WrittenIsNewer(run, labels, k, i, m, m + 1);
    RunSince(run, labels, k, m + 1, n);
    StillTheRecord(b, RowsIn(run[m + 1], k), RowsIn(run[n], k), id, ts);
  }

  /**
   * Two writers of one record: after a PUT that has left it with a new time, a request under the
   * condition of what was read before is carried out if and only if the record has been removed by
   * then or, on Spanner, has expired.
   */
  lemma SecondWriterExactly(run: seq<State>, labels: seq<Label>, k: Key, i: nat, m: nat, n: nat, id: string,
                            header: int, clock: int)
    requires IsRun(run, labels) && AllGenuine(run, labels) && i <= m < n < |labels| && k.1 >= 1 && Kept(run, k, i, n)
    requires run[0].b.Mysql? ==> Apart(RowsIn(run[0], k).Keys)
    requires UpToVersion(RowsIn(run[0], k), VersionIn(run[0], k))
    requires 0 <= header <= RecordTime(run[i], k, id, clock)
    requires StampsRecord(run[m], labels[m], k, id) && GuardedRecord(run[n], labels[n], k, id, header)
    ensures var row := RecordIn(run[n], k, id);
      Passed(DoneOf(run[n].sessions[labels[n].sid]))
      <==> row.None? || (run[n].b.Spanner? && row.value.expiry <= ClockOf(run[n], labels[n]))
  {
    RunKeepsInv(run, labels, n);
    RunKeepsUpToVersion(run, labels, i, k);
    TimeIsCovered(run[i], k, id, clock);
    if RecordIn(run[n], k, id).Some? { RecordIsNewer(run, labels, k, i, m, n, id); }
    NewerRecordRefuses(run[n], labels[n], k, id, header);
  }

  lemma TimeIsCovered(s: State, k: Key, id: string, clock: int)
    requires UpToVersion(RowsIn(s, k), VersionIn(s, k))
    ensures RecordTime(s, k, id, clock) <= ModifiedIn(s, k) || RecordTime(s, k, id, clock) == 0
  {}

  lemma NewerRecordRefuses(s: State, l: Label, k: Key, id: string, header: int)
    requires Inv(s) && GuardedRecord(s, l, k, id, header) && header >= 0
    requires RecordIn(s, k, id).Some? ==> RecordIn(s, k, id).value.modified > header
    ensures var row := RecordIn(s, k, id);
      Passed(DoneOf(s.sessions[l.sid])) <==> row.None? || (s.b.Spanner? && row.value.expiry <= ClockOf(s, l))
  {
    RecordCheckHoldsAtCommit(s, l, k, id, header);
  }
}
