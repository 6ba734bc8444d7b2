/**
 * What a write leaves of a record, field by field, and how long a query shows it: the last that a
 * client has said of the record, and a time to live that is counted from then on.
 */
module Fields {
  import opened Wrappers
  import opened Bso
  import opened Upsert
  import opened Collation
  import opened Store
  import opened Handlers
  import opened Footprint
  import opened Protocol
  import opened Versions
  import opened BatchLife
  import opened BatchRuns
  import opened Backends
  import opened GenuineRuns
  import opened RowRuns
  import opened Records
  import Answers
  import BatchCommit
  import Paging

  // ----- the last that is said of a record -----

  predicate Named(b: Backend, items: seq<Item>, id: string) {
    exists i | 0 <= i < |items| :: SameText(b, items[i].id, id)
  }

  function LastSortindex(b: Backend, items: seq<Item>, id: string): Option<I32> {
    if |items| == 0 then None
    else
      var last := items[|items| - 1];
      if SameText(b, last.id, id) && last.sortindex.Some? then last.sortindex
      else LastSortindex(b, items[..|items| - 1], id)
  }

  function LastPayload(b: Backend, items: seq<Item>, id: string): Option<string> {
    if |items| == 0 then None
    else
      var last := items[|items| - 1];
      if SameText(b, last.id, id) && last.payload.Some? then last.payload
      else LastPayload(b, items[..|items| - 1], id)
  }

  function LastTtl(b: Backend, items: seq<Item>, id: string): Option<U32> {
    if |items| == 0 then None
    else
      var last := items[|items| - 1];
      if SameText(b, last.id, id) && last.ttl.Some? then last.ttl else LastTtl(b, items[..|items| - 1], id)
  }

  /** One of the records gives a payload or a sortindex. */
  predicate Modified(b: Backend, items: seq<Item>, id: string) {
    exists i | 0 <= i < |items| :: SameText(b, items[i].id, id) && (items[i].payload.Some? || items[i].sortindex.Some?)
  }

  /** When a record written at `ts` expires: `ttl` seconds later, or when it did, or 2,100,000,000 seconds later. */
  predicate ExpiresAt(before: Option<Row>, ts: int, ttl: Option<U32>, expiry: int) {
    if ttl.Some? then expiry == ts + 1000 * ttl.value
    else if before.Some? then expiry == before.value.expiry
    else expiry == ts + 2_100_000_000_000
  }

  /**
   * The record after writing the given ones, in their order, at `ts`; one that they do not name stays.
   * Its time is set if it is new, if they give it a payload or a sortindex, and if it is `stamped`.
   */
  predicate LeavesFields(b: Backend, before: Option<Row>, ts: int, items: seq<Item>, id: string, stamped: bool,
                         after: Option<Row>)
  {
    if !Named(b, items, id) then after == before
    else
      var sortindex, payload := LastSortindex(b, items, id), LastPayload(b, items, id);
      && after.Some?
      && (if sortindex.Some? then after.value.sortindex == sortindex
          else after.value.sortindex == if before.Some? then before.value.sortindex else None)
      && (if payload.Some? then after.value.payload == payload.value
          else after.value.payload == if before.Some? then before.value.payload else "")
      && after.value.modified
         == (if before.None? || Modified(b, items, id) || stamped then ts else before.value.modified)
      && ExpiresAt(before, ts, LastTtl(b, items, id), after.value.expiry)
  }

  // ----- one list after the other -----

  lemma {:induction false} LastConcat(b: Backend, xs: seq<Item>, ys: seq<Item>, id: string)
    ensures LastSortindex(b, xs + ys, id) == Or(LastSortindex(b, ys, id), LastSortindex(b, xs, id))
    ensures LastPayload(b, xs + ys, id) == Or(LastPayload(b, ys, id), LastPayload(b, xs, id))
    ensures LastTtl(b, xs + ys, id) == Or(LastTtl(b, ys, id), LastTtl(b, xs, id))
  {
    if |ys| == 0 {
      assert xs + ys == xs;
    } else {
      LastConcat(b, xs, ys[..|ys| - 1], id);
      assert (xs + ys)[..|xs + ys| - 1] == xs + ys[..|ys| - 1];
    }
  }

  lemma NamedConcat(b: Backend, xs: seq<Item>, ys: seq<Item>, id: string)
    ensures Named(b, xs + ys, id) <==> Named(b, xs, id) || Named(b, ys, id)
  {
    var all := xs + ys;
    if Named(b, xs, id) {
      var i :| 0 <= i < |xs| && SameText(b, xs[i].id, id);
      assert all[i] == xs[i];
    }
    if Named(b, ys, id) {
      var i :| 0 <= i < |ys| && SameText(b, ys[i].id, id);
      assert all[|xs| + i] == ys[i];
    }
  }

  lemma ModifiedConcat(b: Backend, xs: seq<Item>, ys: seq<Item>, id: string)
    ensures Modified(b, xs + ys, id) <==> Modified(b, xs, id) || Modified(b, ys, id)
  {
    var all := xs + ys;
    if Modified(b, xs, id) {
      var i :| 0 <= i < |xs| && SameText(b, xs[i].id, id) && (xs[i].payload.Some? || xs[i].sortindex.Some?);
      assert all[i] == xs[i];
    }
    if Modified(b, ys, id) {
      var i :| 0 <= i < |ys| && SameText(b, ys[i].id, id) && (ys[i].payload.Some? || ys[i].sortindex.Some?);
      assert all[|xs| + i] == ys[i];
    }
  }

  lemma {:induction false} NotNamed(b: Backend, items: seq<Item>, id: string)
    requires !Named(b, items, id)
    ensures LastSortindex(b, items, id).None? && LastPayload(b, items, id).None? && LastTtl(b, items, id).None?
  {
    if |items| > 0 {
      var before := items[..|items| - 1];
      forall i | 0 <= i < |before|
        ensures !SameText(b, before[i].id, id)
      {
        assert before[i] == items[i];
      }
      NotNamed(b, before, id);
    }
  }

  lemma FieldsConcat(b: Backend, r0: Option<Row>, ts: int, xs: seq<Item>, stamped: bool, r1: Option<Row>,
                     ys: seq<Item>, r2: Option<Row>, id: string)
    requires LeavesFields(b, r0, ts, xs, id, stamped, r1) && LeavesFields(b, r1, ts, ys, id, false, r2)
    ensures LeavesFields(b, r0, ts, xs + ys, id, stamped && Named(b, xs, id), r2)
  {
    LastConcat(b, xs, ys, id);
    NamedConcat(b, xs, ys, id);
    ModifiedConcat(b, xs, ys, id);
    if !Named(b, xs, id) { NotNamed(b, xs, id); }
    if !Named(b, ys, id) { NotNamed(b, ys, id); }
  }

  // ----- upserts and the commit of a batch -----

  lemma OthersAreFound(rows: Rows, ts: int, item: Item, id: string)
    requires !Same(item.id, id) && Apart(rows.Keys)
    ensures FindRow(PutCollated(rows, ts, item), id) == FindRow(rows, id)
  {
    var after := PutCollated(rows, ts, item);
    PutKeepsApart(rows, ts, item);
    if StoredId(rows, id).Some? {
      var key := StoredId(rows, id).value;
      assert key in after && after[key] == rows[key];
      FindsUnderAny(after, key, id);
    }
    if StoredId(after, id).Some? {
      var key := StoredId(after, id).value;
      assert key in rows && after[key] == rows[key];
      FindsUnderAny(rows, key, id);
    }
  }

  /** One record written to one row. */
  lemma UpsertLeavesFields(b: Backend, prior: Option<Row>, ts: int, item: Item, id: string)
    requires SameText(b, item.id, id)
    ensures LeavesFields(b, prior, ts, [item], id, false,
                         Some(if prior.Some? then UpdatedRow(prior.value, ts, item) else NewRow(ts, item)))
  {
    assert [item][0] == item && [item][..0] == [];
  }

  lemma PutLeavesFields(b: Backend, rows: Rows, ts: int, item: Item, id: string)
    requires b.Mysql? ==> Apart(rows.Keys)
    ensures LeavesFields(b, RowOf(b, rows, id), ts, [item], id, false, RowOf(b, PutOn(b, rows, ts, item), id))
  {
    if SameText(b, item.id, id) {
      UpsertLeavesFields(b, RowOf(b, rows, id), ts, item, id);
      if b.Mysql? { CollatedPutIsFound(rows, ts, item, id); }
    } else {
      if b.Mysql? { OthersAreFound(rows, ts, item, id); }
    }
  }

  function PutAllOn(b: Backend, rows: Rows, ts: int, items: seq<Item>): Rows {
    if b.Mysql? then PutAllCollated(rows, ts, items) else PutAll(rows, ts, items)
  }

  lemma {:induction false} PutAllLeavesFields(b: Backend, rows: Rows, ts: int, items: seq<Item>, id: string)
    requires b.Mysql? ==> Apart(rows.Keys)
    ensures LeavesFields(b, RowOf(b, rows, id), ts, items, id, false, RowOf(b, PutAllOn(b, rows, ts, items), id))
  {
    if |items| > 0 {
      var before, last := items[..|items| - 1], items[|items| - 1];
      PutAllLeavesFields(b, rows, ts, before, id);
      var mid := PutAllOn(b, rows, ts, before);
      if b.Mysql? { PutAllKeepsApart(rows, ts, before); }
      PutLeavesFields(b, mid, ts, last, id);
      assert before + [last] == items;
      FieldsConcat(b, RowOf(b, rows, id), ts, before, false, RowOf(b, mid, id), [last],
                   RowOf(b, PutOn(b, mid, ts, last), id), id);
    }
  }

  lemma NamedInIds(items: seq<Item>, id: string)
    ensures Named(Spanner, items, id) <==> id in Ids(items)
  {}

  lemma CommitLeavesFields(rows: Rows, ts: int, batch: BatchCommit.Children, items: seq<Item>, id: string)
    requires BatchCommit.Holds(batch, items)
    ensures LeavesFields(Spanner, Lookup(rows, id), ts, items, id, true,
                         Lookup(BatchCommit.Commit(rows, ts, batch), id))
  {
    PutAllLeavesFields(Spanner, rows, ts, items, id);
    BatchCommit.CommitAgreesWithPutAll(rows, ts, batch, items, id);
    NamedInIds(items, id);
  }

  // ----- what a step writes -----

  /** The records that the answer lists as stored. */
  function Stored(items: seq<Item>, success: seq<string>): seq<Item> {
    if |items| == 0 then []
    else
      var before, last := Stored(items[..|items| - 1], success), items[|items| - 1];
      if last.id in success then before + [last] else before
  }

  lemma {:induction false} StoredIsWithout(items: seq<Item>, success: seq<string>, faulty: set<string>)
    requires forall i | 0 <= i < |items| :: items[i].id in success <==> items[i].id !in faulty
    ensures Stored(items, success) == Without(items, faulty)
  {
    if |items| > 0 {
      var before := items[..|items| - 1];
      forall i | 0 <= i < |before|
        ensures before[i].id in success <==> before[i].id !in faulty
      {
        assert before[i] == items[i];
      }
      StoredIsWithout(before, success, faulty);
    }
  }

  /** The records that the answer to a POST lists as stored are those whose statement has not failed. */
  lemma ListedAreStored(items: seq<Item>, faulty: set<string>)
    ensures Stored(items, IdList(Without(items, faulty))) == Without(items, faulty)
  {
    var success := IdList(Without(items, faulty));
    Answers.WithoutIds(items, faulty);
    Answers.ListedIds(Without(items, faulty));
    forall i | 0 <= i < |items|
      ensures items[i].id in success <==> items[i].id !in faulty
    {
      assert items[i].id in success <==> items[i].id in Answers.Listed(success);
      assert items[i].id in Ids(items);
    }
    StoredIsWithout(items, success, faulty);
  }

  /** What had been uploaded to the batch that a session commits. */
  function DueTo(s: State, session: Session): seq<Item>
    requires session.r.action.PostBatch?
  {
    if session.r.action.batch.None? then []
    else Uploaded(s.log, KeyFor(s.b, session.r), session.r.action.batch.value)
  }

  /** The records that the step writes, in the order in which they take effect. */
  function WrittenBy(s: State, l: Label): seq<Item>
    requires l.Commit? && Enabled(s, l)
  {
    var session := s.sessions[l.sid];
    var reply, faulty := DoneOf(session).r.value, session.phase.env.faulty;
    match session.r.action
    case Put(item) => [item]
    case Post(items, _) => Stored(items, reply.success)
    case PostBatch(_, commit, items, _) =>
      if !commit then []
      else if s.b.Mysql? then Without(PostedItems(items, reply), faulty) + Without(DueTo(s, session), faulty)
      else DueTo(s, session) + PostedItems(items, reply)
    case _ => []
  }

  /** The step commits a batch on Spanner that has the record: it sets the time even of one about the ttl alone. */
  predicate Stamps(s: State, l: Label, id: string)
    requires l.Commit? && Enabled(s, l)
  {
    var session := s.sessions[l.sid];
    s.b.Spanner? && session.r.action.PostBatch? && session.r.action.commit && Named(s.b, DueTo(s, session), id)
  }

  predicate Deletes(action: Action) { action.DelBso? || action.DelBsos? }

  lemma PostOutcome(x: Context, env: Env, items: seq<Item>)
    requires Sound(x) && env.fault.None?
    requires x.b.Spanner? ==> DistinctIds(items) && Represented(x, env, x.found.rows, items)
    ensures Outcome(x, PostCall(x, env, NOTHING, items).p) == Ok(PostedRows(x, env, items))
  {
    if x.b.Mysql? {
      PostEachIsPutAll(x, NOTHING, items, env.faulty);
    } else {
      PostPending(x, env, items);
    }
  }

  lemma PassedPost(x: Context, env: Env, seen: Option<int>, r: Request)
    requires r.action.Post? && Passed(CheckThenAct(x, env, seen, r))
    ensures var done := CheckThenAct(x, env, seen, r);
      && env.fault.None? && done.p == PostCall(x, env, NOTHING, r.action.items).p
      && done.r.value.success == IdList(Without(r.action.items, if x.b.Mysql? then env.faulty else {}))
  {
    NoneFaulty(r.action.items);
  }

  lemma PostedFields(x: Context, env: Env, seen: Option<int>, r: Request, rows: Rows, id: string)
    requires r.action.Post? && Passed(CheckThenAct(x, env, seen, r)) && Sound(x)
    requires x.b.Spanner? ==> DistinctIds(r.action.items) && Represented(x, env, x.found.rows, r.action.items)
    requires x.b.Mysql? ==> Apart(x.found.rows.Keys)
    requires Outcome(x, CheckThenAct(x, env, seen, r).p) == Ok(rows)
    ensures LeavesFields(x.b, RowOf(x.b, x.found.rows, id), x.ts,
                         Stored(r.action.items, CheckThenAct(x, env, seen, r).r.value.success), id, false,
                         RowOf(x.b, rows, id))
  {
    var items := r.action.items;
    var faulty := if x.b.Mysql? then env.faulty else {};
    PassedPost(x, env, seen, r);
    PostOutcome(x, env, items);
    ListedAreStored(items, faulty);
    NoneFaulty(items);
    PutAllLeavesFields(x.b, x.found.rows, x.ts, Without(items, faulty), id);
  }

  lemma PostLeavesFields(s: State, l: Label, k: Key, id: string)
    requires Inv(s) && SessionsGenuine(s) && Carried(s, l, k) && s.sessions[l.sid].r.action.Post?
    requires s.b.Mysql? ==> Apart(RowsIn(s, k).Keys)
    ensures LeavesFields(s.b, RecordIn(s, k, id), s.sessions[l.sid].ts, WrittenBy(s, l), id, Stamps(s, l, id),
                         RecordIn(Step(s, l), k, id))
  {
    var session := s.sessions[l.sid];
    assert SessionInv(s.b, s.t, session) && GenuineSession(session);
    CommitLeavesRows(s, l.sid);
    PostedFields(session.phase.x, session.phase.env, session.phase.seen, session.r, RowsIn(Step(s, l), k), id);
  }

  lemma TwiceLeavesFields(rows: Rows, ts: int, xs: seq<Item>, ys: seq<Item>, id: string)
    requires Apart(rows.Keys)
    ensures LeavesFields(Mysql, FindRow(rows, id), ts, xs + ys, id, false,
                         FindRow(PutAllCollated(PutAllCollated(rows, ts, xs), ts, ys), id))
  {
    var mid := PutAllCollated(rows, ts, xs);
    PutAllKeepsApart(rows, ts, xs);
    PutAllLeavesFields(Mysql, rows, ts, xs, id);
    PutAllLeavesFields(Mysql, mid, ts, ys, id);
    FieldsConcat(Mysql, FindRow(rows, id), ts, xs, false, FindRow(mid, id), ys,
                 FindRow(PutAllCollated(mid, ts, ys), id), id);
  }

  lemma OnTopLeavesFields(rows: Rows, ts: int, uploaded: seq<Item>, last: seq<Item>, id: string)
    requires BatchCommit.Holds(ChildrenOf(uploaded), uploaded)
    ensures LeavesFields(Spanner, Lookup(rows, id), ts, uploaded + last, id, Named(Spanner, uploaded, id),
                         Lookup(PutAll(BatchCommit.Commit(rows, ts, ChildrenOf(uploaded)), ts, last), id))
  {
    var mid := BatchCommit.Commit(rows, ts, ChildrenOf(uploaded));
    CommitLeavesFields(rows, ts, ChildrenOf(uploaded), uploaded, id);
    PutAllLeavesFields(Spanner, mid, ts, last, id);
    FieldsConcat(Spanner, Lookup(rows, id), ts, uploaded, true, Lookup(mid, id), last,
                 Lookup(PutAll(mid, ts, last), id), id);
  }

  /** What the session has prepared applies what had been uploaded, and what is posted last. */
  lemma BatchApplies(s: State, l: Label, k: Key)
    requires Inv(s) && AllStand(s) && SessionsGenuine(s) && CommittingBatch(s, l, k)
    ensures var session := s.sessions[l.sid];
      var x, env := session.phase.x, session.phase.env;
      var last := PostedItems(session.r.action.items, DoneOf(session).r.value);
      && Applies(x, env, DoneOf(session).p, last, DueTo(s, session))
      && (s.b.Spanner? && last != [] ==>
            env.fault.None? && Represented(x, env, x.found.rows, last) && DistinctIds(last))
  {
    var session := s.sessions[l.sid];
    assert SessionInv(s.b, s.t, session) && GenuineSession(session);
    CommittingEntry(s, l, k);
    StoredLast(session.phase.x, session.phase.env, session.r.action.batch, session.r.action.items,
               session.r.action.invalid);
  }

  lemma BatchOutcome(x: Context, env: Env, p: Pending, last: seq<Item>, uploaded: seq<Item>, rows: Rows, id: string)
    requires Applies(x, env, p, last, uploaded) && Outcome(x, p) == Ok(rows)
    requires x.b.Mysql? ==> Apart(x.found.rows.Keys)
    requires x.b.Spanner? && last != [] ==>
      env.fault.None? && Represented(x, env, x.found.rows, last) && DistinctIds(last)
    ensures var items := if x.b.Mysql? then Without(last, env.faulty) + Without(uploaded, env.faulty)
                         else uploaded + last;
      LeavesFields(x.b, RowOf(x.b, x.found.rows, id), x.ts, items, id, x.b.Spanner? && Named(x.b, uploaded, id),
                   RowOf(x.b, rows, id))
  {
    if x.b.Mysql? {
      TwiceLeavesFields(x.found.rows, x.ts, Without(last, env.faulty), Without(uploaded, env.faulty), id);
    } else {
      AppliedOnTop(x, env, p, last, uploaded);
      UploadedFirst(x, env, p, last, uploaded);
      OnTopLeavesFields(x.found.rows, x.ts, uploaded, last, id);
    }
  }

  lemma BatchIsWritten(s: State, l: Label, k: Key, id: string)
    requires Inv(s) && CommittingBatch(s, l, k)
    ensures var session := s.sessions[l.sid];
      var x, last := session.phase.x, PostedItems(session.r.action.items, DoneOf(session).r.value);
      var due, faulty := DueTo(s, session), session.phase.env.faulty;
      && x.b == s.b && x.ts == session.ts && x.found.rows == RowsIn(s, k)
      && WrittenBy(s, l) == (if x.b.Mysql? then Without(last, faulty) + Without(due, faulty) else due + last)
      && Stamps(s, l, id) == (x.b.Spanner? && Named(x.b, due, id))
  {
    assert SessionInv(s.b, s.t, s.sessions[l.sid]);
  }

  lemma CommitOutcome(s: State, l: Label, k: Key)
    requires Inv(s) && Carried(s, l, k)
    ensures Outcome(s.sessions[l.sid].phase.x, DoneOf(s.sessions[l.sid]).p) == Ok(RowsIn(Step(s, l), k))
  {
    assert SessionInv(s.b, s.t, s.sessions[l.sid]);
    CommitLeavesRows(s, l.sid);
  }

  lemma BatchLeavesFields(s: State, l: Label, k: Key, id: string)
    requires Inv(s) && AllStand(s) && SessionsGenuine(s) && Wrote(s, l, k) && s.sessions[l.sid].r.action.PostBatch?
    requires s.b.Mysql? ==> Apart(RowsIn(s, k).Keys)
    ensures LeavesFields(s.b, RecordIn(s, k, id), s.sessions[l.sid].ts, WrittenBy(s, l), id, Stamps(s, l, id),
                         RecordIn(Step(s, l), k, id))
  {
    var session := s.sessions[l.sid];
    CommitOutcome(s, l, k);
    assert Step(s, l).b == s.b;
    BatchApplies(s, l, k);
    BatchIsWritten(s, l, k, id);
    BatchOutcome(session.phase.x, session.phase.env, DoneOf(session).p,
                 PostedItems(session.r.action.items, DoneOf(session).r.value), DueTo(s, session),
                 RowsIn(Step(s, l), k), id);
  }

  /** What any write but a deletion leaves of any record. */
  lemma WriteLeavesFields(s: State, l: Label, k: Key, id: string)
    requires Inv(s) && AllStand(s) && SessionsGenuine(s) && Wrote(s, l, k) && !Deletes(s.sessions[l.sid].r.action)
    requires s.b.Mysql? ==> Apart(RowsIn(s, k).Keys)
    ensures LeavesFields(s.b, RecordIn(s, k, id), s.sessions[l.sid].ts, WrittenBy(s, l), id, Stamps(s, l, id),
                         RecordIn(Step(s, l), k, id))
  {
    match s.sessions[l.sid].r.action
    case Put(item) =>
      PutRows(s, l, k);
      PutLeavesFields(s.b, RowsIn(s, k), s.sessions[l.sid].ts, item, id);
    case Post(items, invalid) => PostLeavesFields(s, l, k, id);
    case PostBatch(batch, commit, items, invalid) => BatchLeavesFields(s, l, k, id);
  }

  // ----- until it is written again -----

  /** The step writes the record or deletes it. */
  predicate WritesRecord(s: State, l: Label, k: Key, id: string) {
    && Wrote(s, l, k)
    && match s.sessions[l.sid].r.action
       case DelBso(d) => SameText(s.b, d, id)
       case DelBsos(ids) => Names(s.b, ids, id)
       case _ => Named(s.b, WrittenBy(s, l), id)
  }

  lemma RemovalKeepsOthers(b: Backend, rows: Rows, ids: set<string>, id: string)
    requires !Names(b, ids, id) && (b.Mysql? ==> Apart(rows.Keys))
    ensures RowOf(b, RemoveRows(b, rows, ids), id) == RowOf(b, rows, id)
  {
    var after := RemoveRows(b, rows, ids);
    if b.Mysql? {
      assert after.Keys <= rows.Keys;
      if StoredId(rows, id).Some? {
        var key := StoredId(rows, id).value;
        forall d | d in ids
          ensures !Same(key, d)
        {
          assert !SameText(b, id, d);
        }
        FindsUnderAny(after, key, id);
      }
      if StoredId(after, id).Some? { FindsUnderAny(rows, StoredId(after, id).value, id); }
    }
  }

  lemma DeletionRows(s: State, l: Label, k: Key)
    requires Inv(s) && Carried(s, l, k) && Deletes(s.sessions[l.sid].r.action)
    ensures var action := s.sessions[l.sid].r.action;
      RowsIn(Step(s, l), k) == RemoveRows(s.b, RowsIn(s, k), if action.DelBso? then {action.id} else action.ids)
  {
    var session := s.sessions[l.sid];
    assert SessionInv(s.b, s.t, session);
    CommitLeavesRows(s, l.sid);
    PassedDeletion(session.phase.x, session.phase.env, session.phase.seen, session.r);
  }

  lemma PassedDeletion(x: Context, env: Env, seen: Option<int>, r: Request)
    requires Sound(x) && Deletes(r.action) && Passed(CheckThenAct(x, env, seen, r))
    ensures Outcome(x, CheckThenAct(x, env, seen, r).p)
         == Ok(RemoveRows(x.b, x.found.rows, if r.action.DelBso? then {r.action.id} else r.action.ids))
  {}

  lemma OtherWriteKeepsRecord(s: State, l: Label, k: Key, id: string)
    requires Inv(s) && AllStand(s) && SessionsGenuine(s) && Wrote(s, l, k) && !WritesRecord(s, l, k, id)
    requires s.b.Mysql? ==> Apart(RowsIn(s, k).Keys)
    ensures RecordIn(Step(s, l), k, id) == RecordIn(s, k, id)
  {
    match s.sessions[l.sid].r.action
    case DelBso(d) =>
      DeletionRows(s, l, k);
      RemovalKeepsOthers(s.b, RowsIn(s, k), {d}, id);
    case DelBsos(ids) =>
      DeletionRows(s, l, k);
      RemovalKeepsOthers(s.b, RowsIn(s, k), ids, id);
    case _ => WriteLeavesFields(s, l, k, id);
  }

  lemma StepKeepsRecord(s: State, l: Label, k: Key, id: string)
    requires Inv(s) && AllStand(s) && SessionsGenuine(s) && Enabled(s, l) && k.1 >= 1 && !WritesRecord(s, l, k, id)
    requires VersionIn(s, k).Some? && VersionIn(Step(s, l), k).Some?
    requires s.b.Mysql? ==> Apart(RowsIn(s, k).Keys)
    ensures RecordIn(Step(s, l), k, id) == RecordIn(s, k, id)
  {
    if Wrote(s, l, k) {
      OtherWriteKeepsRecord(s, l, k, id);
    } else {
      RowsStep(s, l, k);
    }
  }

  /** Nobody writes or deletes the record between the two states. */
  predicate LeftAlone(run: seq<State>, labels: seq<Label>, k: Key, id: string, i: nat, j: nat)
    requires |run| == |labels| + 1 && j < |run|
  {
    forall m | i <= m < j :: !WritesRecord(run[m], labels[m], k, id)
  }

  lemma {:induction false} RecordStays(run: seq<State>, labels: seq<Label>, k: Key, id: string, i: nat, j: nat)
    requires IsRun(run, labels) && AllGenuine(run, labels) && i <= j < |run| && k.1 >= 1
    requires run[0].b.Mysql? ==> Apart(RowsIn(run[0], k).Keys)
    requires VersionIn(run[i], k).Some? && Kept(run, k, i, j) && LeftAlone(run, labels, k, id, i, j)
    ensures RecordIn(run[j], k, id) == RecordIn(run[i], k, id)
    decreases j
  {
    if i < j {
      RecordStays(run, labels, k, id, i, j - 1);
      VersionsIncrease(run, labels, k, i, j - 1);
      RunStepKeepsRecord(run, labels, k, id, j - 1);
    }
  }

  lemma RunStepKeepsRecord(run: seq<State>, labels: seq<Label>, k: Key, id: string, n: nat)
    requires IsRun(run, labels) && AllGenuine(run, labels) && n < |labels| && k.1 >= 1
    requires run[0].b.Mysql? ==> Apart(RowsIn(run[0], k).Keys)
    requires VersionIn(run[n], k).Some? && VersionIn(run[n + 1], k).Some? && !WritesRecord(run[n], labels[n], k, id)
    ensures RecordIn(run[n + 1], k, id) == RecordIn(run[n], k, id)
  {
    RunRowsStep(run, labels, n, k);
    if run[0].b.Mysql? { RunKeepsApart(run, labels, n, k); }
    StepKeepsRecord(run[n], labels[n], k, id);
  }

  // ----- what a client gets to see -----

  /** A query for all records. */
  const ALL: Paging.Filter := Paging.Filter(None, None, [])

  /** The rows of a collection in any order. */
  predicate Lists(entries: seq<Paging.Entry>, rows: Rows) {
    && (forall e | e in entries :: e.id in rows && rows[e.id] == e.row)
    && (forall id | id in rows :: Paging.Entry(id, rows[id]) in entries)
  }

  /** The answer to a query at `now` has the record. */
  predicate Shown(b: Backend, entries: seq<Paging.Entry>, now: int, id: string) {
    exists e | e in Paging.Select(b, entries, ALL, now) :: SameText(b, e.id, id)
  }

  lemma ShownExactly(b: Backend, entries: seq<Paging.Entry>, rows: Rows, now: int, id: string)
    requires Lists(entries, rows) && (b.Mysql? ==> Apart(rows.Keys))
    ensures Shown(b, entries, now, id) <==> RowOf(b, rows, id).Some? && now < RowOf(b, rows, id).value.expiry
  {
    Paging.SelectExactly(b, entries, ALL, now);
    if Shown(b, entries, now, id) {
      var e :| e in Paging.Select(b, entries, ALL, now) && SameText(b, e.id, id);
      if b.Mysql? { FindsUnderAny(rows, e.id, id); }
    }
    if RowOf(b, rows, id).Some? && now < RowOf(b, rows, id).value.expiry {
      var key := if b.Mysql? then StoredId(rows, id).value else id;
      assert Paging.Entry(key, rows[key]) in Paging.Select(b, entries, ALL, now);
    }
  }

  /** The step writes the record, which then expires at `expiry`, and nobody writes or deletes it up to state `n`. */
  predicate WrittenLast(run: seq<State>, labels: seq<Label>, k: Key, m: nat, n: nat, id: string, expiry: int)
    requires IsRun(run, labels) && m < n < |run|
  {
    && WritesRecord(run[m], labels[m], k, id) && !Deletes(run[m].sessions[labels[m].sid].r.action)
    && Kept(run, k, m + 1, n) && LeftAlone(run, labels, k, id, m + 1, n)
    && ExpiresAt(RecordIn(run[m], k, id), run[m].sessions[labels[m].sid].ts,
                 LastTtl(run[m].b, WrittenBy(run[m], labels[m]), id), expiry)
  }

  lemma WriteExpires(s: State, l: Label, k: Key, id: string, expiry: int)
    requires Inv(s) && AllStand(s) && SessionsGenuine(s) && (s.b.Mysql? ==> Apart(RowsIn(s, k).Keys)) && k.1 >= 1
    requires WritesRecord(s, l, k, id) && !Deletes(s.sessions[l.sid].r.action)
    requires ExpiresAt(RecordIn(s, k, id), s.sessions[l.sid].ts, LastTtl(s.b, WrittenBy(s, l), id), expiry)
    ensures VersionIn(Step(s, l), k).Some?
    ensures RecordIn(Step(s, l), k, id).Some? && RecordIn(Step(s, l), k, id).value.expiry == expiry
  {
    WriteLeavesFields(s, l, k, id);
    VersionStep(s, l, k);
  }

  lemma RunStaysApart(run: seq<State>, labels: seq<Label>, n: nat, k: Key)
    requires IsRun(run, labels) && n < |run| && k.1 >= 1 && (run[0].b.Mysql? ==> Apart(RowsIn(run[0], k).Keys))
    ensures run[n].b == run[0].b && (run[n].b.Mysql? ==> Apart(RowsIn(run[n], k).Keys))
  {
    RunKeepsInv(run, labels, n);
    if run[0].b.Mysql? { RunKeepsApart(run, labels, n, k); }
  }

  lemma LastWriteLeaves(run: seq<State>, labels: seq<Label>, k: Key, m: nat, n: nat, id: string, expiry: int)
    requires IsRun(run, labels) && AllGenuine(run, labels) && m < n < |run| && k.1 >= 1
    requires run[0].b.Mysql? ==> Apart(RowsIn(run[0], k).Keys)
    requires WrittenLast(run, labels, k, m, n, id, expiry)
    ensures RecordIn(run[n], k, id).Some? && RecordIn(run[n], k, id).value.expiry == expiry
  {
    RunRowsStep(run, labels, m, k);
    RunStaysApart(run, labels, m, k);
    WriteExpires(run[m], labels[m], k, id, expiry);
    RecordStays(run, labels, k, id, m + 1, n);
  }

  /**
   * In every run, after a PUT, a POST or the commit of a batch at `ts` that has written a record, and
   * until it is written or deleted again, a query at `now` shows the record if and only if `now` is
   * before its expiry: `ts` and 1000 times the ttl it was last given, what it was before if the write
   * gave it none, and `ts` and 2,100,000,000,000 if it was new.
   */
  lemma ShownUntilItExpires(run: seq<State>, labels: seq<Label>, k: Key, m: nat, n: nat, id: string, expiry: int,
                            entries: seq<Paging.Entry>, now: int)
    requires IsRun(run, labels) && AllGenuine(run, labels) && m < n < |run| && k.1 >= 1
    requires run[0].b.Mysql? ==> Apart(RowsIn(run[0], k).Keys)
    requires WrittenLast(run, labels, k, m, n, id, expiry) && Lists(entries, RowsIn(run[n], k))
    ensures Shown(run[n].b, entries, now, id) <==> now < expiry
  {
    LastWriteLeaves(run, labels, k, m, n, id, expiry);
    RunStaysApart(run, labels, n, k);
    ShownExactly(run[n].b, entries, RowsIn(run[n], k), now, id);
  }

  /** A GET of the record alone at `now` shows it as long, and on MySQL in the very millisecond of its expiry too. */
  lemma FoundUntilItExpires(run: seq<State>, labels: seq<Label>, u: U64, c: int, m: nat, n: nat, id: string,
                            expiry: int, now: int)
    requires IsRun(run, labels) && AllGenuine(run, labels) && m < n < |run| && c >= 1
    requires run[0].b.Mysql? ==> Apart(RowsIn(run[0], (StoredUser(run[0].b, u), c)).Keys)
    requires WrittenLast(run, labels, (StoredUser(run[0].b, u), c), m, n, id, expiry)
    ensures GetBso(ContextOf(run[n].b, run[n].t, u, c, now), NOTHING, id, now).Some?
      <==> now < expiry || (run[n].b.Mysql? && now == expiry)
  {
    LastWriteLeaves(run, labels, (StoredUser(run[0].b, u), c), m, n, id, expiry);
    RunKeepsInv(run, labels, n);
  }

  /** A record that has expired stays out of sight when it is written again without a ttl. */
  lemma ExpiredStaysHidden(run: seq<State>, labels: seq<Label>, k: Key, m: nat, n: nat, id: string,
                           entries: seq<Paging.Entry>, now: int)
    requires IsRun(run, labels) && AllGenuine(run, labels) && m < n < |run| && k.1 >= 1
    requires run[0].b.Mysql? ==> Apart(RowsIn(run[0], k).Keys)
    requires RecordIn(run[m], k, id).Some? && RecordIn(run[m], k, id).value.expiry <= now
    requires WrittenLast(run, labels, k, m, n, id, RecordIn(run[m], k, id).value.expiry)
    requires Lists(entries, RowsIn(run[n], k))
    ensures !Shown(run[n].b, entries, now, id)
  {
    ShownUntilItExpires(run, labels, k, m, n, id, RecordIn(run[m], k, id).value.expiry, entries, now);
  }
}
