/**
 * Runs whose Spanner sessions are left with mutations that stand for the records they post, as
 * `Transaction.TransactionHttp` shows of every session.
 */
module GenuineRuns {
  import opened Wrappers
  import opened Bso
  import opened Upsert
  import opened Store
  import opened Handlers
  import opened Footprint
  import opened Protocol
  import opened Versions
  import opened BatchLife
  import opened BatchRuns
  import opened Backends
  import BatchCommit
  import CommitShortcut
  import SpannerPost

  /** A session that is going to commit what its request asks for. */
  ghost predicate GenuineSession(session: Session) {
    session.phase.Acted? && session.phase.x.b.Spanner? && Passed(DoneOf(session)) ==>
      Acceptable(session.r.action) && Genuine(session.phase.x, session.phase.env, session.r.action)
  }

  ghost predicate ActsGenuinely(s: State, l: Label) {
    l.Act? && Enabled(s, l) ==> GenuineSession(Step(s, l).sessions[l.sid])
  }

  ghost predicate AllGenuine(run: seq<State>, labels: seq<Label>)
    requires |run| == |labels| + 1
  {
    forall i | 0 <= i < |labels| :: ActsGenuinely(run[i], labels[i])
  }

  ghost predicate SessionsGenuine(s: State) { forall sid | sid in s.sessions :: GenuineSession(s.sessions[sid]) }

  lemma StepKeepsGenuine(s: State, l: Label)
    requires SessionsGenuine(s) && Enabled(s, l) && ActsGenuinely(s, l)
    ensures SessionsGenuine(Step(s, l))
  {
    var s' := Step(s, l);
    forall sid | sid in s'.sessions
      ensures GenuineSession(s'.sessions[sid])
    {
      if s'.sessions[sid].phase.Acted? && !(l.Act? && sid == l.sid) {
        assert sid in s.sessions && s'.sessions[sid] == s.sessions[sid];
      }
    }
  }

  lemma {:induction false} RunKeepsGenuine(run: seq<State>, labels: seq<Label>, i: nat)
    requires IsRun(run, labels) && AllGenuine(run, labels) && i < |run|
    ensures SessionsGenuine(run[i])
  {
    if i > 0 {
      RunKeepsGenuine(run, labels, i - 1);
      assert ActsGenuinely(run[i - 1], labels[i - 1]);
      StepKeepsGenuine(run[i - 1], labels[i - 1]);
    }
  }

  // ----- the commit of a batch -----

  /** The session of the step is about to commit a POST with commit. */
  predicate CommittingBatch(s: State, l: Label, k: Key) {
    && l.Commit? && Enabled(s, l) && KeyFor(s.b, s.sessions[l.sid].r) == k
    && Passed(DoneOf(s.sessions[l.sid]))
    && s.sessions[l.sid].r.action.PostBatch? && s.sessions[l.sid].r.action.commit
  }

  /** The records of the last POST that have been stored. */
  function LastOf(e: Entry): seq<Item>
    requires e.Served? && EntryDone(e).r.Ok? && e.r.action.PostBatch?
  {
    PostedItems(e.r.action.items, EntryDone(e).r.value)
  }

  /** A row of the batch with the last records in it, but for `modified` of those that are about the ttl alone. */
  function CommittedRow(rows: Rows, ts: int, uploaded: seq<Item>, last: seq<Item>, id: string): Option<Row> {
    CommitShortcut.Posted(Lookup(rows, id),
                          Lookup(BatchCommit.Commit(rows, ts, ChildrenOf(uploaded) + ChildrenOf(last)), id),
                          Lookup(ChildrenOf(last), id))
  }

  lemma CommittingEntry(s: State, l: Label, k: Key)
    requires Inv(s) && AllStand(s) && CommittingBatch(s, l, k)
    ensures var e := EntryOf(s, l.sid);
      && KeyOf(e.x) == k && e.x.b == s.b && e.x.found == CollectionAt(s.t, k) && Sound(e.x)
      && EntryDone(e) == DoneOf(s.sessions[l.sid])
      && Shape(e.x, EntryDone(e).p)
      && Applies(e.x, e.env, EntryDone(e).p, LastOf(e), Due(s, e))
  {
    var e := EntryOf(s, l.sid);
    assert SessionInv(s.b, s.t, s.sessions[l.sid]);
    CommitShape(s, l.sid);
    if e.r.action.batch.Some? { assert StandsFor(s, k, e.r.action.batch.value); }
    ServedApplies(e, Due(s, e));
  }

  /** Records are only stored at once by a call that does not fail. */
  lemma StoredLast(x: Context, env: Env, batch: Option<int>, items: seq<Item>, invalid: set<string>)
    ensures var done := HandleBatch(x, env, NOTHING, batch, true, items, invalid);
      done.r.Ok? && PostedItems(items, done.r.value) != [] ==>
        env.fault.None? && PostedItems(items, done.r.value) == items
  {}

  /** The statements write what was uploaded. */
  lemma UploadedFirst(x: Context, env: Env, p: Pending, last: seq<Item>, uploaded: seq<Item>)
    requires x.b.Spanner? && Applies(x, env, p, last, uploaded)
    ensures BatchCommit.Holds(ChildrenOf(uploaded), uploaded)
    ensures RowsAt(x, p) == BatchCommit.Commit(x.found.rows, x.ts, ChildrenOf(uploaded))
  {
    var children :|
      BatchCommit.Holds(children, uploaded) && RowsAt(x, p) == BatchCommit.Commit(x.found.rows, x.ts, children);
    ChildrenHold(uploaded);
    HoldsOne(children, ChildrenOf(uploaded), uploaded);
  }

  lemma NothingPosted(x: Context, env: Env, p: Pending, uploaded: seq<Item>)
    requires x.b.Spanner? && Applies(x, env, p, [], uploaded)
    ensures SpannerPost.ApplyAll(OwnerOf(KeyOf(x)), RowsAt(x, p), MutationsOf(x, p)) == Ok(RowsAt(x, p))
    ensures forall id :: Lookup(RowsAt(x, p), id) == CommittedRow(x.found.rows, x.ts, uploaded, [], id)
  {
    UploadedFirst(x, env, p, [], uploaded);
    forall id
      ensures Lookup(RowsAt(x, p), id) == CommittedRow(x.found.rows, x.ts, uploaded, [], id)
    {
      WithNothing(x.found.rows, x.ts, uploaded, id);
    }
  }

  lemma NoChildren(children: BatchCommit.Children)
    ensures ChildrenOf([]) == map[] && children + ChildrenOf([]) == children
  {}

  lemma WithNothing(rows: Rows, ts: int, uploaded: seq<Item>, id: string)
    ensures CommittedRow(rows, ts, uploaded, [], id) == Lookup(BatchCommit.Commit(rows, ts, ChildrenOf(uploaded)), id)
  {
    NoChildren(ChildrenOf(uploaded));
  }

  /** What the pending changes of the session come to. */
  lemma CommitApplied(x: Context, env: Env, p: Pending, last: seq<Item>, uploaded: seq<Item>)
    requires x.b.Spanner? && Applies(x, env, p, last, uploaded) && Ids(uploaded) !! Ids(last)
    requires last != [] ==> env.fault.None? && Represented(x, env, x.found.rows, last) && DistinctIds(last)
    ensures var rows := SpannerPost.ApplyAll(OwnerOf(KeyOf(x)), RowsAt(x, p), MutationsOf(x, p));
      && rows.Ok?
      && forall id :: Lookup(rows.value, id) == CommittedRow(x.found.rows, x.ts, uploaded, last, id)
  {
    if last == [] {
      NothingPosted(x, env, p, uploaded);
    } else {
      SpannerCommitIsShortcut(x, env, p, last, uploaded);
    }
  }

  /**
   * Spanner, in any run: as long as the last records have no id in common with those uploaded, the
   * commit of a batch succeeds, and the rows it leaves are those of the batch with the last records
   * in it, written at once to the rows of that moment, but for `modified` of a last record that is
   * about the ttl alone.
   */
  lemma BatchIsCommitted(run: seq<State>, labels: seq<Label>, i: nat, k: Key)
    requires IsRun(run, labels) && AllGenuine(run, labels) && i < |labels|
    requires run[i].b.Spanner? && CommittingBatch(run[i], labels[i], k)
    requires var e := EntryOf(run[i], labels[i].sid); Ids(Due(run[i], e)) !! Ids(LastOf(e))
    ensures var e := EntryOf(run[i], labels[i].sid);
      var before, after := CollectionAt(run[i].t, k), CollectionAt(run[i + 1].t, k);
      && CommitTables(run[i].t, EntryDone(e).p).Ok?
      && forall id :: Lookup(after.rows, id) == CommittedRow(before.rows, e.x.ts, Due(run[i], e), LastOf(e), id)
  {
    RunKeepsInv(run, labels, i);
    RunStands(run, labels, i);
    RunKeepsGenuine(run, labels, i);
    BatchCommits(run[i], labels[i], k);
  }

  lemma BatchCommits(s: State, l: Label, k: Key)
    requires Inv(s) && AllStand(s) && SessionsGenuine(s) && s.b.Spanner? && CommittingBatch(s, l, k)
    requires var e := EntryOf(s, l.sid); Ids(Due(s, e)) !! Ids(LastOf(e))
    ensures var e := EntryOf(s, l.sid);
      && CommitTables(s.t, EntryDone(e).p).Ok?
      && forall id :: Lookup(CollectionAt(Step(s, l).t, k).rows, id)
                   == CommittedRow(CollectionAt(s.t, k).rows, e.x.ts, Due(s, e), LastOf(e), id)
  {
    var e := EntryOf(s, l.sid);
    CommittingEntry(s, l, k);
    assert GenuineSession(s.sessions[l.sid]);
    StoredLast(e.x, e.env, e.r.action.batch, e.r.action.items, e.r.action.invalid);
    CommitApplied(e.x, e.env, EntryDone(e).p, LastOf(e), Due(s, e));
    CommitSucceeds(s.t, e.x, EntryDone(e).p);
    CommitHere(s.t, e.x, EntryDone(e).p);
  }

  /** With ids in common: whether the mutations apply after the statements, and what they leave. */
  lemma AppliedOnTop(x: Context, env: Env, p: Pending, last: seq<Item>, uploaded: seq<Item>)
    requires x.b.Spanner? && Applies(x, env, p, last, uploaded)
    requires last != [] ==> env.fault.None? && Represented(x, env, x.found.rows, last) && DistinctIds(last)
    ensures var rows := SpannerPost.ApplyAll(OwnerOf(KeyOf(x)), RowsAt(x, p), MutationsOf(x, p));
      && (rows.Ok? <==> forall id | id in Ids(uploaded) && id in Ids(last) :: id in x.found.rows)
      && (rows.Ok? ==> rows.value == PutAll(BatchCommit.Commit(x.found.rows, x.ts, ChildrenOf(uploaded)), x.ts, last))
  {
    UploadedFirst(x, env, p, last, uploaded);
    if last != [] {
      ChildrenHold(last);
      PostedOnTop(OwnerOf(KeyOf(x)), x.found.rows, x.ts, ChildrenOf(uploaded), ChildrenOf(last), last, env.mutations);
    }
  }

  lemma PostedOnTop(owner: SpannerPost.Owner, rows: Rows, ts: int, batch: BatchCommit.Children,
                    last: BatchCommit.Children, items: seq<Item>, mutations: seq<SpannerPost.Mutation>)
    requires BatchCommit.Holds(last, items) && SpannerPost.Represents(owner, ts, rows.Keys, mutations, items)
    ensures var applied := SpannerPost.ApplyAll(owner, BatchCommit.Commit(rows, ts, batch), mutations);
      && (applied.Ok? <==> forall id | id in batch && id in last :: id in rows)
      && (applied.Ok? ==> applied.value == PutAll(BatchCommit.Commit(rows, ts, batch), ts, items))
  {
    CommitShortcut.SpannerShortcutSucceeds(owner, rows, ts, batch, last, items, mutations);
    if forall id | id in batch && id in last :: id in rows {
      CommitShortcut.MutationsStillApply(owner, rows, ts, batch, last, items, mutations);
    }
  }

  /**
   * Whether the commit of a batch succeeds on Spanner: exactly if every record uploaded and posted
   * again was there before.
   */
  lemma BatchCommitsExactly(run: seq<State>, labels: seq<Label>, i: nat, k: Key)
    requires IsRun(run, labels) && AllGenuine(run, labels) && i < |labels|
    requires run[i].b.Spanner? && CommittingBatch(run[i], labels[i], k)
    ensures var e := EntryOf(run[i], labels[i].sid);
      CommitTables(run[i].t, EntryDone(e).p).Ok?
      <==> forall id | id in Ids(Due(run[i], e)) && id in Ids(LastOf(e)) :: id in CollectionAt(run[i].t, k).rows
  {
    RunKeepsInv(run, labels, i);
    RunStands(run, labels, i);
    RunKeepsGenuine(run, labels, i);
    var s, l := run[i], labels[i];
    var e := EntryOf(s, l.sid);
    CommittingEntry(s, l, k);
    assert GenuineSession(s.sessions[l.sid]);
    StoredLast(e.x, e.env, e.r.action.batch, e.r.action.items, e.r.action.invalid);
    AppliedOnTop(e.x, e.env, EntryDone(e).p, LastOf(e), Due(s, e));
    var p := EntryDone(e).p;
    if SpannerPost.ApplyAll(OwnerOf(k), RowsAt(e.x, p), MutationsOf(e.x, p)).Ok? { CommitSucceeds(s.t, e.x, p); }
    if CommitTables(s.t, p).Ok? { CommitHere(s.t, e.x, p); }
  }
}
