/**
 * Rows over whole runs: MySQL's primary key is kept, no row is newer than its collection, and a
 * query for what is newer than a version shows exactly the rows that are not as they were then.
 */
module RowRuns {
  import opened Wrappers
  import opened Bso
  import opened Upsert
  import opened Collation
  import opened Store
  import opened Handlers
  import opened Footprint
  import opened Protocol
  import opened Versions
  import opened StorageTime
  import opened BatchLife
  import opened BatchRuns
  import opened Backends
  import opened GenuineRuns
  import BatchCommit
  import Paging
  import SpannerPost

  function RowsIn(s: State, k: Key): Rows { CollectionAt(s.t, k).rows }

  // ----- what a request makes of the rows -----

  predicate OnlyRemoves(before: Rows, after: Rows) {
    forall id | id in after :: id in before && after[id] == before[id]
  }

  /** The last records of a POST and those of a batch, or either. */
  ghost predicate WritesMysql(before: Rows, ts: int, after: Rows) {
    exists first, then_ :: after == PutAllCollated(PutAllCollated(before, ts, first), ts, then_)
  }

  ghost predicate WritesSpanner(before: Rows, ts: int, after: Rows) {
    exists batch, items :: after == PutAll(BatchCommit.Commit(before, ts, batch), ts, items)
  }

  ghost predicate Leaves(b: Backend, before: Rows, ts: int, after: Rows) {
    || OnlyRemoves(before, after)
    || (if b.Mysql? then WritesMysql(before, ts, after) else WritesSpanner(before, ts, after))
  }

  lemma MysqlPosts(rows: Rows, ts: int, items: seq<Item>)
    ensures WritesMysql(rows, ts, PutAllCollated(rows, ts, items))
  {
    assert PutAllCollated(PutAllCollated(rows, ts, []), ts, items) == PutAllCollated(rows, ts, items);
  }

  lemma CommitOfNothing(rows: Rows, ts: int)
    ensures BatchCommit.Commit(rows, ts, map[]) == rows
  {}

  lemma SpannerPosts(rows: Rows, ts: int, items: seq<Item>)
    ensures WritesSpanner(rows, ts, PutAll(rows, ts, items))
  {
    CommitOfNothing(rows, ts);
    assert PutAll(BatchCommit.Commit(rows, ts, map[]), ts, items) == PutAll(rows, ts, items);
  }

  /** What the pending changes come to when they are committed. */
  function Outcome(x: Context, p: Pending): Result<Rows> {
    SpannerPost.ApplyAll(OwnerOf(KeyOf(x)), RowsAt(x, p), MutationsOf(x, p))
  }

  lemma PostLeavesRows(x: Context, env: Env, items: seq<Item>)
    requires Sound(x) && env.fault.None?
    requires x.b.Spanner? ==> DistinctIds(items) && Represented(x, env, x.found.rows, items)
    ensures var rows := Outcome(x, PostCall(x, env, NOTHING, items).p);
      rows.Ok? ==> Leaves(x.b, x.found.rows, x.ts, rows.value)
  {
    if x.b.Mysql? {
      PostEachIsPutAll(x, NOTHING, items, env.faulty);
      MysqlPosts(x.found.rows, x.ts, Without(items, env.faulty));
    } else {
      PostPending(x, env, items);
      SpannerPosts(x.found.rows, x.ts, items);
    }
  }

  lemma PutLeavesRows(x: Context, env: Env, item: Item)
    requires Sound(x) && PutCall(x, env, NOTHING, item).r.Ok?
    requires Represented(x, env, x.found.rows, [item])
    ensures var rows := Outcome(x, PutCall(x, env, NOTHING, item).p);
      rows.Ok? ==> Leaves(x.b, x.found.rows, x.ts, rows.value)
  {
    if x.b.Mysql? {
      assert [item][..0] == [];
      assert PutAllCollated(x.found.rows, x.ts, [item]) == PutCollated(x.found.rows, x.ts, item);
      MysqlPosts(x.found.rows, x.ts, [item]);
    } else {
      PostLeavesRows(x, env, [item]);
    }
  }

  lemma BatchLeavesRows(x: Context, env: Env, p: Pending, last: seq<Item>, uploaded: seq<Item>)
    requires Applies(x, env, p, last, uploaded)
    requires x.b.Spanner? && last != [] ==>
      env.fault.None? && Represented(x, env, x.found.rows, last) && DistinctIds(last)
    ensures var rows := Outcome(x, p); rows.Ok? ==> Leaves(x.b, x.found.rows, x.ts, rows.value)
  {
    if x.b.Spanner? { AppliedOnTop(x, env, p, last, uploaded); }
  }

  lemma DeleteLeavesRows(x: Context, ids: set<string>)
    requires Sound(x)
    ensures var rows := Outcome(x, DeleteBsos(x, NOTHING, ids)); rows.Ok? && OnlyRemoves(x.found.rows, rows.value)
  {}

  /** A request other than a POST to a batch. */
  lemma ActionLeavesRows(x: Context, env: Env, action: Action)
    requires Sound(x) && Parented(x.b, x.found) && IsWrite(action) && !action.PostBatch?
    requires x.b.Spanner? ==> Acceptable(action) && Genuine(x, env, action)
    ensures var done := Handle(x, env, NOTHING, action);
      done.r.Ok? && Outcome(x, done.p).Ok? ==> Leaves(x.b, x.found.rows, x.ts, Outcome(x, done.p).value)
  {
    match action
    case Put(item) => if PutCall(x, env, NOTHING, item).r.Ok? { PutLeavesRows(x, env, item); }
    case Post(items, invalid) => if env.fault.None? { PostLeavesRows(x, env, items); }
    case DelBso(id) => DeleteLeavesRows(x, {id});
    case DelBsos(ids) => DeleteLeavesRows(x, ids);
  }

  // ----- one step -----

  lemma WriteLeavesRows(s: State, l: Label, k: Key)
    requires Inv(s) && AllStand(s) && SessionsGenuine(s) && Wrote(s, l, k)
    ensures Leaves(s.b, RowsIn(s, k), s.sessions[l.sid].ts, RowsIn(Step(s, l), k))
  {
    var session := s.sessions[l.sid];
    assert SessionInv(s.b, s.t, session) && GenuineSession(session);
    assert Parented(s.b, CollectionAt(s.t, k));
    CommitLeavesRows(s, l.sid);
    CarriedShape(s, l, k);
    var x, env, action := session.phase.x, session.phase.env, session.r.action;
    if action.PostBatch? {
      CommittingEntry(s, l, k);
      StoredLast(x, env, action.batch, action.items, action.invalid);
      BatchLeavesRows(x, env, DoneOf(session).p, LastOf(EntryOf(s, l.sid)), Due(s, EntryOf(s, l.sid)));
    } else {
      ActionLeavesRows(x, env, action);
    }
  }

  lemma NothingRows(x: Context)
    ensures Outcome(x, NOTHING) == Ok(x.found.rows)
  {}

  /** A commit that is no write leaves the rows or removes them all, with the version. */
  lemma OtherCommitRows(s: State, l: Label, k: Key)
    requires Inv(s) && Enabled(s, l) && l.Commit? && KeyFor(s.b, s.sessions[l.sid].r) == k && !Wrote(s, l, k)
    ensures var s' := Step(s, l);
      || (RowsIn(s', k) == RowsIn(s, k) && VersionIn(s', k) == VersionIn(s, k))
      || (RowsIn(s', k) == map[] && VersionIn(s', k).None?)
  {
    var session := s.sessions[l.sid];
    assert SessionInv(s.b, s.t, session);
    var x, p := session.phase.x, DoneOf(session).p;
    if CommitTables(s.t, p).Ok? {
      CommittedVersion(s, l, k);
      CommitLeavesRows(s, l.sid);
      NothingRows(x);
      if Carried(s, l, k) {
        CarriedShape(s, l, k);
        QuietOrRemoved(x, session.r.action, p, RowsIn(Step(s, l), k));
      }
    }
  }

  lemma QuietOrRemoved(x: Context, action: Action, p: Pending, rows: Rows)
    requires Sound(x) && !IsWrite(action) && (p == NOTHING || ShapeOf(x, action, p)) && Outcome(x, p) == Ok(rows)
    ensures (rows == x.found.rows && Visible(x.b, VersionAfter(x, p)) == Visible(x.b, x.found.version))
      || (rows == map[] && VersionAfter(x, p).None?)
  {}

  /** One step and the rows of one collection: a write, or nothing, or all of them are removed with its version. */
  lemma RowsStep(s: State, l: Label, k: Key)
    requires Inv(s) && AllStand(s) && SessionsGenuine(s) && Enabled(s, l) && k.1 >= 1
    ensures var s' := Step(s, l);
      if Wrote(s, l, k) then Leaves(s.b, RowsIn(s, k), s.sessions[l.sid].ts, RowsIn(s', k))
      else
        || (RowsIn(s', k) == RowsIn(s, k) && VersionIn(s', k) == VersionIn(s, k))
        || (RowsIn(s', k) == map[] && VersionIn(s', k).None?)
  {
    if l.Commit? {
      if Wrote(s, l, k) {
        WriteLeavesRows(s, l, k);
      } else if KeyFor(s.b, s.sessions[l.sid].r) == k {
        OtherCommitRows(s, l, k);
      } else {
        CommitKeepsOthers(s, l.sid, k);
      }
    } else if l.Wipe? {
      WipeAt(s.b, s.t, l.u, k);
    }
  }

  // ----- the primary key -----

  lemma LeavesApart(before: Rows, ts: int, after: Rows)
    requires Leaves(Mysql, before, ts, after) && Apart(before.Keys)
    ensures Apart(after.Keys)
  {
    if !OnlyRemoves(before, after) {
      var first, then_ :| after == PutAllCollated(PutAllCollated(before, ts, first), ts, then_);
      PutAllKeepsApart(before, ts, first);
      PutAllKeepsApart(PutAllCollated(before, ts, first), ts, then_);
    }
  }

  /** On MySQL no two ids of a collection are ever equal under the collation. */
  lemma {:induction false} RunKeepsApart(run: seq<State>, labels: seq<Label>, i: nat, k: Key)
    requires IsRun(run, labels) && i < |run| && k.1 >= 1 && run[0].b.Mysql? && Apart(RowsIn(run[0], k).Keys)
    ensures Apart(RowsIn(run[i], k).Keys)
  {
    if i > 0 {
      RunKeepsApart(run, labels, i - 1, k);
      RunKeepsInv(run, labels, i - 1);
      RunStands(run, labels, i - 1);
      MysqlIsGenuine(run[i - 1]);
      RowsStep(run[i - 1], labels[i - 1], k);
      if Wrote(run[i - 1], labels[i - 1], k) {
        LeavesApart(RowsIn(run[i - 1], k), run[i - 1].sessions[labels[i - 1].sid].ts, RowsIn(run[i], k));
      }
    }
  }

  lemma MysqlIsGenuine(s: State)
    requires Inv(s) && s.b.Mysql?
    ensures SessionsGenuine(s)
  {}

  // ----- last-modified times of rows -----

  /** A row that says the same, at the same time, was there under an id that the backend takes for the same. */
  predicate WasThere(b: Backend, before: Rows, id: string, row: Row) {
    exists key | key in before :: SameText(b, key, id) && before[key] == row.(expiry := before[key].expiry)
  }

  /** Every row has just been modified or was there. */
  predicate Stamped(b: Backend, before: Rows, ts: int, after: Rows) {
    forall id | id in after :: after[id].modified == ts || WasThere(b, before, id, after[id])
  }

  lemma StampedTwice(b: Backend, r0: Rows, r1: Rows, r2: Rows, ts: int)
    requires Stamped(b, r0, ts, r1) && Stamped(b, r1, ts, r2)
    ensures Stamped(b, r0, ts, r2)
  {}

  lemma RemovalStamps(b: Backend, before: Rows, ts: int, after: Rows)
    requires OnlyRemoves(before, after)
    ensures Stamped(b, before, ts, after)
  {}

  lemma PutStamps(b: Backend, rows: Rows, ts: int, item: Item)
    ensures Stamped(b, rows, ts, if b.Mysql? then PutCollated(rows, ts, item) else PutBso(rows, ts, item))
  {}

  lemma {:induction false} PutAllStamps(b: Backend, rows: Rows, ts: int, items: seq<Item>)
    ensures Stamped(b, rows, ts, if b.Mysql? then PutAllCollated(rows, ts, items) else PutAll(rows, ts, items))
  {
    if |items| == 0 {
      RemovalStamps(b, rows, ts, rows);
    } else {
      var n := |items| - 1;
      var before := if b.Mysql? then PutAllCollated(rows, ts, items[..n]) else PutAll(rows, ts, items[..n]);
      PutAllStamps(b, rows, ts, items[..n]);
      PutStamps(b, before, ts, items[n]);
      var after := if b.Mysql? then PutCollated(before, ts, items[n]) else PutBso(before, ts, items[n]);
      StampedTwice(b, rows, before, after, ts);
    }
  }

  lemma CommitStamps(rows: Rows, ts: int, batch: BatchCommit.Children)
    ensures Stamped(Spanner, rows, ts, BatchCommit.Commit(rows, ts, batch))
  {}

  lemma LeavesStamped(b: Backend, before: Rows, ts: int, after: Rows)
    requires Leaves(b, before, ts, after)
    ensures Stamped(b, before, ts, after)
  {
    if OnlyRemoves(before, after) {
      RemovalStamps(b, before, ts, after);
    } else if b.Mysql? {
      var first, then_ :| after == PutAllCollated(PutAllCollated(before, ts, first), ts, then_);
      PutAllStamps(b, before, ts, first);
      PutAllStamps(b, PutAllCollated(before, ts, first), ts, then_);
      StampedTwice(b, before, PutAllCollated(before, ts, first), after, ts);
    } else {
      var batch, items :| after == PutAll(BatchCommit.Commit(before, ts, batch), ts, items);
      CommitStamps(before, ts, batch);
      PutAllStamps(b, BatchCommit.Commit(before, ts, batch), ts, items);
      StampedTwice(b, before, BatchCommit.Commit(before, ts, batch), after, ts);
    }
  }

  /** Rows are found in collections that have a version, and are not newer. */
  predicate UpToVersion(rows: Rows, version: Option<int>) {
    forall id | id in rows :: version.Some? && rows[id].modified <= version.value
  }

  lemma StampsUpToVersion(b: Backend, before: Rows, version: Option<int>, ts: int, after: Rows)
    requires UpToVersion(before, version) && Stamped(b, before, ts, after) && (version.Some? ==> version.value < ts)
    ensures UpToVersion(after, Some(ts))
  {}

  /**
   * In every state of every run no row of a collection is newer than the collection, so that what
   * a client is told of the collection covers all it can have read there.
   */
  lemma {:induction false} RunKeepsUpToVersion(run: seq<State>, labels: seq<Label>, i: nat, k: Key)
    requires IsRun(run, labels) && AllGenuine(run, labels) && i < |run| && k.1 >= 1
    requires UpToVersion(RowsIn(run[0], k), VersionIn(run[0], k))
    ensures UpToVersion(RowsIn(run[i], k), VersionIn(run[i], k))
  {
    if i > 0 {
      RunKeepsUpToVersion(run, labels, i - 1, k);
      RunRowsStep(run, labels, i - 1, k);
      StepKeepsUpToVersion(run[i - 1], labels[i - 1], k);
    }
  }

  lemma RunRowsStep(run: seq<State>, labels: seq<Label>, i: nat, k: Key)
    requires IsRun(run, labels) && AllGenuine(run, labels) && i < |labels| && k.1 >= 1
    ensures Inv(run[i]) && AllStand(run[i]) && SessionsGenuine(run[i]) && run[i].b == run[0].b
  {
    RunKeepsInv(run, labels, i);
    RunStands(run, labels, i);
    RunKeepsGenuine(run, labels, i);
  }

  lemma StepKeepsUpToVersion(s: State, l: Label, k: Key)
    requires Inv(s) && AllStand(s) && SessionsGenuine(s) && Enabled(s, l) && k.1 >= 1
    requires UpToVersion(RowsIn(s, k), VersionIn(s, k))
    ensures UpToVersion(RowsIn(Step(s, l), k), VersionIn(Step(s, l), k))
  {
    RowsStep(s, l, k);
    VersionStep(s, l, k);
    if Wrote(s, l, k) {
      var ts := s.sessions[l.sid].ts;
      LeavesStamped(s.b, RowsIn(s, k), ts, RowsIn(Step(s, l), k));
      StampsUpToVersion(s.b, RowsIn(s, k), VersionIn(s, k), ts, RowsIn(Step(s, l), k));
    }
  }

  // ----- the times of rows are ticks -----

  predicate TickRows(rows: Rows) { forall id | id in rows :: Paging.InTicks(rows[id]) }

  lemma ExpiryInTicks(ts: int, ttl: U32)
    requires ts > 0 && ts % 10 == 0
    ensures ExpiryOf(ts, ttl) >= 0 && ExpiryOf(ts, ttl) % 10 == 0
  {
    assert ts == 10 * (ts / 10);
    assert ExpiryOf(ts, ttl) == 10 * (ts / 10 + ttl * 100);
    TenTimes(ts / 10 + ttl * 100);
  }

  lemma TenTimes(n: int)
    ensures 10 * n % 10 == 0
  {}

  lemma UpsertInTicks(prior: Option<Row>, ts: int, item: Item)
    requires (prior.Some? ==> Paging.InTicks(prior.value)) && ts > 0 && ts % 10 == 0
    ensures Paging.InTicks(if prior.Some? then UpdatedRow(prior.value, ts, item) else NewRow(ts, item))
  {
    ExpiryInTicks(ts, GetOr(item.ttl, DEFAULT_BSO_TTL));
  }

  lemma {:induction false} PutAllInTicks(b: Backend, rows: Rows, ts: int, items: seq<Item>)
    requires TickRows(rows) && ts > 0 && ts % 10 == 0
    ensures TickRows(if b.Mysql? then PutAllCollated(rows, ts, items) else PutAll(rows, ts, items))
  {
    if |items| > 0 {
      var n := |items| - 1;
      var before := if b.Mysql? then PutAllCollated(rows, ts, items[..n]) else PutAll(rows, ts, items[..n]);
      PutAllInTicks(b, rows, ts, items[..n]);
      UpsertInTicks(RowOf(b, before, items[n].id), ts, items[n]);
    }
  }

  lemma CommitInTicks(rows: Rows, ts: int, batch: BatchCommit.Children)
    requires TickRows(rows) && ts > 0 && ts % 10 == 0
    ensures TickRows(BatchCommit.Commit(rows, ts, batch))
  {
    var after := BatchCommit.Commit(rows, ts, batch);
    forall id | id in after
      ensures Paging.InTicks(after[id])
    {
      BatchCommit.CommitAt(rows, ts, batch, id);
      if id in batch { UpsertInTicks(Lookup(rows, id), ts, batch[id]); }
    }
  }

  lemma LeavesInTicks(b: Backend, before: Rows, ts: int, after: Rows)
    requires Leaves(b, before, ts, after) && TickRows(before) && ts > 0 && ts % 10 == 0
    ensures TickRows(after)
  {
    if !OnlyRemoves(before, after) {
      if b.Mysql? {
        var first, then_ :| after == PutAllCollated(PutAllCollated(before, ts, first), ts, then_);
        PutAllInTicks(b, before, ts, first);
        PutAllInTicks(b, PutAllCollated(before, ts, first), ts, then_);
      } else {
        var batch, items :| after == PutAll(BatchCommit.Commit(before, ts, batch), ts, items);
        CommitInTicks(before, ts, batch);
        PutAllInTicks(b, BatchCommit.Commit(before, ts, batch), ts, items);
      }
    }
  }

  lemma StepKeepsTickRows(s: State, l: Label, k: Key)
    requires Inv(s) && AllStand(s) && SessionsGenuine(s) && Enabled(s, l) && k.1 >= 1
    requires SessionTicks(s) && TickRows(RowsIn(s, k))
    ensures TickRows(RowsIn(Step(s, l), k))
  {
    RowsStep(s, l, k);
    if Wrote(s, l, k) {
      VersionStep(s, l, k);
      LeavesInTicks(s.b, RowsIn(s, k), s.sessions[l.sid].ts, RowsIn(Step(s, l), k));
    }
  }

  /** The times of rows, of their expiry too, are ticks in every state. */
  lemma {:induction false} RunKeepsTickRows(run: seq<State>, labels: seq<Label>, i: nat, k: Key)
    requires IsRun(run, labels) && AllGenuine(run, labels) && AllTicks(labels) && i < |run| && k.1 >= 1
    requires IsTick(VersionIn(run[0], k)) && TickRows(RowsIn(run[0], k))
    ensures TickRows(RowsIn(run[i], k))
  {
    if i > 0 {
      RunKeepsTickRows(run, labels, i - 1, k);
      RunRowsStep(run, labels, i - 1, k);
      RunKeepsTicks(run, labels, i - 1, k);
      StepKeepsTickRows(run[i - 1], labels[i - 1], k);
    }
  }

  // ----- what a client gets to see -----

  /** Each row is newer than `version` or as it was before. */
  predicate Since(b: Backend, before: Rows, version: int, after: Rows) {
    forall id | id in after :: after[id].modified > version || WasThere(b, before, id, after[id])
  }

  lemma SinceOn(b: Backend, r0: Rows, version: int, r1: Rows, ts: int, r2: Rows)
    requires Since(b, r0, version, r1) && Stamped(b, r1, ts, r2) && ts > version
    ensures Since(b, r0, version, r2)
  {}

  lemma {:induction false} RunSince(run: seq<State>, labels: seq<Label>, k: Key, i: nat, j: nat)
    requires IsRun(run, labels) && AllGenuine(run, labels) && i <= j < |run| && k.1 >= 1 && Kept(run, k, i, j)
    ensures Since(run[0].b, RowsIn(run[i], k), ModifiedIn(run[i], k), RowsIn(run[j], k))
    decreases j
  {
    if i == j {
      SinceItself(run[0].b, RowsIn(run[i], k), ModifiedIn(run[i], k));
    } else {
      RunSince(run, labels, k, i, j - 1);
      RunStepSince(run, labels, k, i, j - 1);
    }
  }

  lemma SinceItself(b: Backend, rows: Rows, version: int)
    ensures Since(b, rows, version, rows)
  {}

  lemma RunStepSince(run: seq<State>, labels: seq<Label>, k: Key, i: nat, n: nat)
    requires IsRun(run, labels) && AllGenuine(run, labels) && i <= n < |labels| && k.1 >= 1 && Kept(run, k, i, n + 1)
    requires Since(run[0].b, RowsIn(run[i], k), ModifiedIn(run[i], k), RowsIn(run[n], k))
    ensures Since(run[0].b, RowsIn(run[i], k), ModifiedIn(run[i], k), RowsIn(run[n + 1], k))
  {
    RunRowsStep(run, labels, n, k);
    WritesRaise(run, labels, k, i, n);
    StepSince(run[n], labels[n], k, RowsIn(run[i], k), ModifiedIn(run[i], k));
  }

  lemma WritesRaise(run: seq<State>, labels: seq<Label>, k: Key, i: nat, n: nat)
    requires IsRun(run, labels) && i <= n < |labels| && k.1 >= 1 && Kept(run, k, i, n + 1)
    ensures Wrote(run[n], labels[n], k) ==> ModifiedIn(run[i], k) < ModifiedIn(Step(run[n], labels[n]), k)
  {
    if Wrote(run[n], labels[n], k) { WrittenIsNewer(run, labels, k, i, n, n + 1); }
  }

  lemma StepSince(s: State, l: Label, k: Key, rows: Rows, version: int)
    requires Inv(s) && AllStand(s) && SessionsGenuine(s) && Enabled(s, l) && k.1 >= 1
    requires Since(s.b, rows, version, RowsIn(s, k)) && (Wrote(s, l, k) ==> version < ModifiedIn(Step(s, l), k))
    ensures Since(s.b, rows, version, RowsIn(Step(s, l), k))
  {
    RowsStep(s, l, k);
    if Wrote(s, l, k) {
      VersionStep(s, l, k);
      var ts := s.sessions[l.sid].ts;
      LeavesStamped(s.b, RowsIn(s, k), ts, RowsIn(Step(s, l), k));
      SinceOn(s.b, rows, version, RowsIn(s, k), ts, RowsIn(Step(s, l), k));
    }
  }

  /** A query for what is newer than a version. */
  function Newer(version: int): Paging.Filter { Paging.Filter(Some(version), None, []) }

  /**
   * A client that asks for what is newer than the version it has read in state `i` gets, in any
   * later state, as long as the collection is not removed, exactly the unexpired rows that were
   * not there in state `i` with that payload, sortindex and time.
   */
  lemma NewerShowsWhatChanged(run: seq<State>, labels: seq<Label>, k: Key, i: nat, j: nat, id: string, now: int)
    requires IsRun(run, labels) && AllGenuine(run, labels) && i <= j < |run| && k.1 >= 1 && Kept(run, k, i, j)
    requires UpToVersion(RowsIn(run[0], k), VersionIn(run[0], k))
    requires id in RowsIn(run[j], k)
    ensures var row := RowsIn(run[j], k)[id];
      Paging.Matches(run[0].b, Newer(ModifiedIn(run[i], k)), now, Paging.Entry(id, row))
      <==> row.expiry > now && !WasThere(run[0].b, RowsIn(run[i], k), id, row)
  {
    RunSince(run, labels, k, i, j);
    RunKeepsUpToVersion(run, labels, i, k);
  }
}
