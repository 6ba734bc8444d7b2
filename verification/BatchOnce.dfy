/** A batch that has been committed is over: no later request uploads to it, commits it or gets its id. */
module BatchOnce {
  import opened Wrappers
  import Bso
  import opened Store
  import opened Handlers
  import opened Footprint
  import opened Protocol
  import opened Versions
  import opened StorageTime
  import opened BatchLife
  import opened BatchRuns

  predicate Spends(e: Entry, k: Key, id: int) {
    On(e, k) && EntryEffect(e).Committed? && EntryEffect(e).id == id
  }

  /** The request has created the batch, uploaded to it or committed it. */
  predicate About(e: Entry, k: Key, id: int) {
    On(e, k) && !EntryEffect(e).NoEffect? && EntryEffect(e).id == id
  }

  /** The entry is a DELETE /storage that makes MySQL forget how far the user's collections have come. */
  predicate Forgets(b: Backend, e: Entry, k: Key) { b.Mysql? && e.Wiped? && StoredUser(b, e.u) == k.0 }

  /** The batch has been committed, and MySQL has not forgotten since. */
  predicate Spent(b: Backend, log: seq<Entry>, k: Key, id: int) {
    |log| > 0 && !Forgets(b, log[|log| - 1], k)
    && (Spends(log[|log| - 1], k, id) || Spent(b, log[..|log| - 1], k, id))
  }

  lemma SpentSnoc(b: Backend, log: seq<Entry>, e: Entry, k: Key, id: int)
    ensures Spent(b, log + [e], k, id) <==> !Forgets(b, e, k) && (Spends(e, k, id) || Spent(b, log, k, id))
  {}

  predicate ForgottenAfter(b: Backend, log: seq<Entry>, k: Key, i: nat) {
    exists w | i < w < |log| :: Forgets(b, log[w], k)
  }

  lemma ForgottenSnoc(b: Backend, log: seq<Entry>, k: Key, i: nat)
    requires |log| > 0 && ForgottenAfter(b, log[..|log| - 1], k, i)
    ensures ForgottenAfter(b, log, k, i)
  {
    var w :| i < w < |log| - 1 && Forgets(b, log[..|log| - 1][w], k);
    assert Forgets(b, log[w], k);
  }

  lemma SpendingIsNoWipe(b: Backend, e: Entry, k: Key, id: int)
    requires Spends(e, k, id)
    ensures !Forgets(b, e, k)
  {}

  lemma {:induction false} SpentOrForgotten(b: Backend, log: seq<Entry>, k: Key, id: int, i: nat)
    requires i < |log| && Spends(log[i], k, id)
    ensures Spent(b, log, k, id) || ForgottenAfter(b, log, k, i)
  {
    var n := |log| - 1;
    if i == n {
      SpendingIsNoWipe(b, log[n], k, id);
    } else if Forgets(b, log[n], k) {
      assert ForgottenAfter(b, log, k, i);
    } else {
      assert log[..n][i] == log[i];
      SpentOrForgotten(b, log[..n], k, id, i);
      if ForgottenAfter(b, log[..n], k, i) { ForgottenSnoc(b, log, k, i); }
    }
  }

  // ----- why a committed id does not come back -----

  /** MySQL: a timestamp is over once the collection's version, or the last commit, has passed it. */
  predicate Past(s: State, k: Key, id: int) {
    if VersionIn(s, k).Some? then id <= VersionIn(s, k).value else id < s.last
  }

  predicate OverMysql(s: State, k: Key, id: int) {
    && (id in CollectionAt(s.t, k).batches ==> id <= s.last)
    && (Spent(s.b, s.log, k, id) ==> id !in CollectionAt(s.t, k).batches && Past(s, k, id))
  }

  /** Spanner: an id is drawn once. */
  predicate Drawing(s: State, id: int) {
    exists sid | sid in s.sessions :: s.sessions[sid].phase.Acted? && s.sessions[sid].phase.env.uuid == id
  }

  predicate OverSpanner(s: State, k: Key, id: int) {
    && (id in CollectionAt(s.t, k).batches || Spent(s.b, s.log, k, id) ==> id in s.uuids && !Drawing(s, id))
    && (Spent(s.b, s.log, k, id) ==> id !in CollectionAt(s.t, k).batches)
  }

  predicate Over(s: State, k: Key, id: int) { if s.b.Mysql? then OverMysql(s, k, id) else OverSpanner(s, k, id) }

  /** No two sessions at work have drawn the same id. */
  predicate DrawnOnce(s: State) {
    && (forall i | i in s.sessions && s.sessions[i].phase.Acted? :: s.sessions[i].phase.env.uuid in s.uuids)
    && (forall i, j | i in s.sessions && j in s.sessions && s.sessions[i].phase.Acted? && s.sessions[j].phase.Acted? ::
          i != j ==> s.sessions[i].phase.env.uuid != s.sessions[j].phase.env.uuid)
  }

  lemma StepKeepsDrawnOnce(s: State, l: Label)
    requires DrawnOnce(s) && Enabled(s, l)
    ensures DrawnOnce(Step(s, l))
  {}

  lemma PastTheSession(s: State, sid: int, k: Key, id: int)
    requires Inv(s) && Enabled(s, Commit(sid)) && CommitsInOrder(s, Commit(sid))
    requires KeyFor(s.b, s.sessions[sid].r) == k && Past(s, k, id)
    ensures id < s.sessions[sid].ts
  {}

  /** What a request is about was not over: an id it names is still there, an id it gets is new. */
  lemma NotOver(s: State, sid: int, id: int)
    requires Inv(s) && AllStand(s) && Enabled(s, Commit(sid)) && CommitTables(s.t, DoneOf(s.sessions[sid]).p).Ok?
    requires s.b.Mysql? ==> CommitsInOrder(s, Commit(sid))
    requires Over(s, KeyFor(s.b, s.sessions[sid].r), id)
    ensures Spent(s.b, s.log, KeyFor(s.b, s.sessions[sid].r), id) ==>
      !About(EntryOf(s, sid), KeyFor(s.b, s.sessions[sid].r), id)
  {
    var e, k := EntryOf(s, sid), KeyFor(s.b, s.sessions[sid].r);
    CommitBatches(s, sid);
    if Spent(s.b, s.log, k, id) && s.b.Mysql? { PastTheSession(s, sid, k, id); }
  }

  lemma CommitElsewhereOver(s: State, sid: int, k: Key, id: int)
    requires Inv(s) && DrawnOnce(s) && Enabled(s, Commit(sid)) && k != KeyFor(s.b, s.sessions[sid].r) && k.1 >= 1
    requires Over(s, k, id) && (s.b.Mysql? ==> CommitsInOrder(s, Commit(sid)))
    ensures Over(Step(s, Commit(sid)), k, id)
  {
    CommitKeepsOthers(s, sid, k);
    assert SessionInv(s.b, s.t, s.sessions[sid]);
    SpentSnoc(s.b, s.log, EntryOf(s, sid), k, id);
  }

  lemma BatchesUpToLast(x: Context, before: Batches, after: Batches, e: Entry, id: int, last: int)
    requires e.Served? && x == e.x && x.b.Mysql? && last <= x.ts
    requires Logged(x, after, EntryEffect(e)) && before == x.found.batches
    requires id in before ==> id <= last
    ensures id in after || Spends(e, KeyOf(x), id) ==> id <= x.ts
  {}

  lemma NewlySpent(x: Context, after: Batches, e: Entry, id: int)
    requires e.Served? && x == e.x && Logged(x, after, EntryEffect(e))
    ensures Spends(e, KeyOf(x), id) ==> id !in after
    ensures id in after && id !in x.found.batches ==> About(e, KeyOf(x), id)
  {}

  lemma PastAfterCommit(s: State, sid: int, k: Key, id: int)
    requires Inv(s) && Enabled(s, Commit(sid)) && CommitTables(s.t, DoneOf(s.sessions[sid]).p).Ok?
    requires CommitsInOrder(s, Commit(sid)) && KeyFor(s.b, s.sessions[sid].r) == k && k.1 >= 1
    requires Past(s, k, id) || (Wrote(s, Commit(sid), k) && id <= s.sessions[sid].ts)
    ensures Past(Step(s, Commit(sid)), k, id)
  {
    VersionStep(s, Commit(sid), k);
    if Past(s, k, id) { PastTheSession(s, sid, k, id); }
  }

  lemma CommitHereOverMysql(s: State, sid: int, id: int)
    requires Inv(s) && AllStand(s) && Enabled(s, Commit(sid)) && CommitTables(s.t, DoneOf(s.sessions[sid]).p).Ok?
    requires s.b.Mysql? && CommitsInOrder(s, Commit(sid)) && OverMysql(s, KeyFor(s.b, s.sessions[sid].r), id)
    ensures OverMysql(Step(s, Commit(sid)), KeyFor(s.b, s.sessions[sid].r), id)
  {
    var e, k := EntryOf(s, sid), KeyFor(s.b, s.sessions[sid].r);
    var after := CollectionAt(Step(s, Commit(sid)).t, k).batches;
    CommitBatches(s, sid);
    SpentSnoc(s.b, s.log, e, k, id);
    BatchesUpToLast(e.x, e.x.found.batches, after, e, id, s.last);
    NewlySpent(e.x, after, e, id);
    NotOver(s, sid, id);
    if Spends(e, k, id) { CommittedIsWrite(s, sid, k); }
    if Spent(s.b, s.log, k, id) || Spends(e, k, id) { PastAfterCommit(s, sid, k, id); }
  }

  lemma CommittedIsWrite(s: State, sid: int, k: Key)
    requires Inv(s) && Enabled(s, Commit(sid)) && CommitTables(s.t, DoneOf(s.sessions[sid]).p).Ok?
    requires KeyFor(s.b, s.sessions[sid].r) == k && DoneOf(s.sessions[sid]) == EntryDone(EntryOf(s, sid))
    requires EntryEffect(EntryOf(s, sid)).Committed?
    ensures Wrote(s, Commit(sid), k)
  {}

  lemma IdWasDrawn(x: Context, after: Batches, e: Entry, id: int)
    requires e.Served? && x == e.x && x.b.Spanner? && Logged(x, after, EntryEffect(e))
    ensures id in after || Spends(e, KeyOf(x), id) ==> id in x.found.batches || id == e.env.uuid
  {}

  lemma NotDrawnByOthers(s: State, sid: int, id: int)
    requires DrawnOnce(s) && Enabled(s, Commit(sid))
    requires !Drawing(s, id) || id == s.sessions[sid].phase.env.uuid
    ensures !Drawing(Step(s, Commit(sid)), id)
    ensures id == s.sessions[sid].phase.env.uuid ==> id in s.uuids
  {}

  lemma CommitHereOverSpanner(s: State, sid: int, id: int)
    requires Inv(s) && AllStand(s) && Enabled(s, Commit(sid)) && CommitTables(s.t, DoneOf(s.sessions[sid]).p).Ok?
    requires s.b.Spanner? && DrawnOnce(s) && OverSpanner(s, KeyFor(s.b, s.sessions[sid].r), id)
    ensures OverSpanner(Step(s, Commit(sid)), KeyFor(s.b, s.sessions[sid].r), id)
  {
    var e, k := EntryOf(s, sid), KeyFor(s.b, s.sessions[sid].r);
    var after := CollectionAt(Step(s, Commit(sid)).t, k).batches;
    CommitBatches(s, sid);
    SpentSnoc(s.b, s.log, e, k, id);
    IdWasDrawn(e.x, after, e, id);
    NewlySpent(e.x, after, e, id);
    NotOver(s, sid, id);
    if !Drawing(s, id) || id == e.env.uuid { NotDrawnByOthers(s, sid, id); }
  }

  lemma WipeOver(s: State, wid: int, u: U64, k: Key, id: int)
    requires Inv(s) && Enabled(s, Wipe(wid, u)) && Over(s, k, id)
    ensures Over(Step(s, Wipe(wid, u)), k, id)
  {
    WipeAt(s.b, s.t, u, k);
    SpentSnoc(s.b, s.log, Wiped(u), k, id);
  }

  /** MySQL's ids depend on timestamps that do not go back. */
  predicate InOrder(s: State, l: Label) { s.b.Mysql? ==> CommitsInOrder(s, l) }

  lemma CommitOver(s: State, l: Label, k: Key, id: int)
    requires Inv(s) && AllStand(s) && DrawnOnce(s) && Enabled(s, l) && InOrder(s, l) && k.1 >= 1 && l.Commit?
    requires Over(s, k, id)
    ensures Over(Step(s, l), k, id)
  {
    if KeyFor(s.b, s.sessions[l.sid].r) != k {
      CommitElsewhereOver(s, l.sid, k, id);
    } else if CommitTables(s.t, DoneOf(s.sessions[l.sid]).p).Ok? {
      if s.b.Mysql? { CommitHereOverMysql(s, l.sid, id); } else { CommitHereOverSpanner(s, l.sid, id); }
    }
  }

  lemma OtherStepOver(s: State, l: Label, k: Key, id: int)
    requires DrawnOnce(s) && Enabled(s, l) && !l.Commit? && !l.Wipe? && Over(s, k, id)
    ensures Over(Step(s, l), k, id)
  {
    OtherStepTables(s, l);
    if s.b.Spanner? && id in s.uuids && !Drawing(s, id) { OtherStepDrawing(s, l, id); }
  }

  lemma OtherStepTables(s: State, l: Label)
    requires Enabled(s, l) && !l.Commit? && !l.Wipe?
    ensures var s' := Step(s, l);
      s'.b == s.b && s'.t == s.t && s'.log == s.log && s'.last == s.last && s.uuids <= s'.uuids
  {}

  /** An id that has been drawn is not drawn again. */
  lemma OtherStepDrawing(s: State, l: Label, id: int)
    requires Enabled(s, l) && !l.Commit? && !l.Wipe? && id in s.uuids && !Drawing(s, id)
    ensures !Drawing(Step(s, l), id)
  {}

  lemma StepKeepsOver(s: State, l: Label, k: Key, id: int)
    requires Inv(s) && AllStand(s) && DrawnOnce(s) && Enabled(s, l) && InOrder(s, l) && k.1 >= 1
    requires Over(s, k, id)
    ensures Over(Step(s, l), k, id)
  {
    match l
    case Commit(sid) => CommitOver(s, l, k, id);
    case Wipe(wid, u) => WipeOver(s, wid, u, k, id);
    case _ => OtherStepOver(s, l, k, id);
  }

  // ----- over whole runs -----

  predicate AllInOrder(run: seq<State>, labels: seq<Label>)
    requires |run| == |labels| + 1
  {
    forall i | 0 <= i < |labels| :: InOrder(run[i], labels[i])
  }

  lemma OverAtFirst(s: State, k: Key, id: int)
    requires Init(s)
    ensures DrawnOnce(s) && Over(s, k, id)
  {}

  lemma RunStepKeepsOver(run: seq<State>, labels: seq<Label>, i: nat, k: Key, id: int)
    requires IsRun(run, labels) && i < |labels| && InOrder(run[i], labels[i]) && k.1 >= 1
    requires DrawnOnce(run[i]) && Over(run[i], k, id)
    ensures DrawnOnce(run[i + 1]) && Over(run[i + 1], k, id)
  {
    RunKeepsInv(run, labels, i);
    RunStands(run, labels, i);
    StepKeepsDrawnOnce(run[i], labels[i]);
    StepKeepsOver(run[i], labels[i], k, id);
  }

  lemma {:induction false} RunKeepsOver(run: seq<State>, labels: seq<Label>, i: nat, k: Key, id: int)
    requires IsRun(run, labels) && i < |run| && AllInOrder(run, labels) && k.1 >= 1
    ensures DrawnOnce(run[i]) && Over(run[i], k, id)
  {
    if i == 0 {
      OverAtFirst(run[0], k, id);
    } else {
      RunKeepsOver(run, labels, i - 1, k, id);
      RunStepKeepsOver(run, labels, i - 1, k, id);
    }
  }

  /** In the log nothing about a batch follows its commit, but where MySQL has forgotten in between. */
  predicate OverAfterCommit(b: Backend, log: seq<Entry>, k: Key, id: int) {
    forall i, j | 0 <= i < j < |log| ::
      Spends(log[i], k, id) && About(log[j], k, id) ==> ForgottenAfter(b, log[..j], k, i)
  }

  lemma OverSnoc(b: Backend, log: seq<Entry>, e: Entry, k: Key, id: int)
    requires OverAfterCommit(b, log, k, id) && (Spent(b, log, k, id) ==> !About(e, k, id))
    ensures OverAfterCommit(b, log + [e], k, id)
  {
    var more := log + [e];
    forall i, j | 0 <= i < j < |more| && Spends(more[i], k, id) && About(more[j], k, id)
      ensures ForgottenAfter(b, more[..j], k, i)
    {
      assert more[i] == log[i];
      if j < |log| {
        assert more[j] == log[j] && more[..j] == log[..j];
      } else {
        assert more[..j] == log;
        SpentOrForgotten(b, log, k, id, i);
      }
    }
  }

  /**
   * In every run a committed batch is over: no later request commits it again, uploads to it or
   * creates one of its id. On Spanner this holds without exception. On MySQL, where the id is a
   * timestamp, it holds for sessions that commit in the order of their timestamps, and but for
   * requests after a DELETE /storage.
   */
  lemma {:induction false} BatchAppliedOnce(run: seq<State>, labels: seq<Label>, i: nat, k: Key, id: int)
    requires IsRun(run, labels) && i < |run| && AllInOrder(run, labels) && k.1 >= 1
    ensures OverAfterCommit(run[i].b, run[i].log, k, id)
  {
    if i == 0 {
      NothingSpentAtFirst(run[0], k, id);
    } else {
      BatchAppliedOnce(run, labels, i - 1, k, id);
      RunStepOverAfterCommit(run, labels, i - 1, k, id);
    }
  }

  lemma NothingSpentAtFirst(s: State, k: Key, id: int)
    requires Init(s)
    ensures OverAfterCommit(s.b, s.log, k, id)
  {}

  lemma RunStepOverAfterCommit(run: seq<State>, labels: seq<Label>, i: nat, k: Key, id: int)
    requires IsRun(run, labels) && i < |labels| && AllInOrder(run, labels) && k.1 >= 1
    requires OverAfterCommit(run[i].b, run[i].log, k, id)
    ensures OverAfterCommit(run[i + 1].b, run[i + 1].log, k, id)
  {
    RunKeepsOver(run, labels, i, k, id);
    RunKeepsInv(run, labels, i);
    RunStands(run, labels, i);
    assert InOrder(run[i], labels[i]);
    StepKeepsOverAfterCommit(run[i], labels[i], k, id);
  }

  lemma StepKeepsOverAfterCommit(s: State, l: Label, k: Key, id: int)
    requires Inv(s) && AllStand(s) && Enabled(s, l) && InOrder(s, l) && Over(s, k, id)
    requires OverAfterCommit(s.b, s.log, k, id)
    ensures OverAfterCommit(s.b, Step(s, l).log, k, id)
  {
    if l.Commit? && CommitTables(s.t, DoneOf(s.sessions[l.sid]).p).Ok? {
      var e := EntryOf(s, l.sid);
      CommitBatches(s, l.sid);
      if KeyFor(s.b, s.sessions[l.sid].r) == k { NotOver(s, l.sid, id); }
      OverSnoc(s.b, s.log, e, k, id);
    } else if l.Wipe? {
      OverSnoc(s.b, s.log, Wiped(l.u), k, id);
    }
  }

  // ----- an id that returns -----

  predicate EverSpent(log: seq<Entry>, k: Key, id: int) { exists i | 0 <= i < |log| :: Spends(log[i], k, id) }

  lemma EverSpentSnoc(log: seq<Entry>, e: Entry, k: Key, id: int)
    ensures EverSpent(log + [e], k, id) ==> EverSpent(log, k, id) || Spends(e, k, id)
  {}

  predicate SpentUpToLast(s: State, k: Key, id: int) { EverSpent(s.log, k, id) ==> id <= s.last }

  lemma StepKeepsSpentUpToLast(s: State, l: Label, k: Key, id: int)
    requires Inv(s) && AllStand(s) && Enabled(s, l) && s.b.Mysql? && CommitsInOrder(s, l)
    requires Over(s, k, id) && SpentUpToLast(s, k, id)
    ensures SpentUpToLast(Step(s, l), k, id)
  {
    if l.Commit? && CommitTables(s.t, DoneOf(s.sessions[l.sid]).p).Ok? {
      var e := EntryOf(s, l.sid);
      CommitBatches(s, l.sid);
      EverSpentSnoc(s.log, e, k, id);
      if Spends(e, k, id) {
        BatchesUpToLast(e.x, e.x.found.batches, CollectionAt(Step(s, l).t, k).batches, e, id, s.last);
      }
    } else if l.Wipe? {
      EverSpentSnoc(s.log, Wiped(l.u), k, id);
    }
  }

  lemma {:induction false} RunKeepsSpentUpToLast(run: seq<State>, labels: seq<Label>, i: nat, k: Key, id: int)
    requires IsRun(run, labels) && i < |run| && run[0].b.Mysql? && AllInOrder(run, labels) && k.1 >= 1
    ensures SpentUpToLast(run[i], k, id)
  {
    if i == 0 {
      NeverSpentAtFirst(run[0], k, id);
    } else {
      RunKeepsSpentUpToLast(run, labels, i - 1, k, id);
      RunStepKeepsSpentUpToLast(run, labels, i - 1, k, id);
    }
  }

  lemma NeverSpentAtFirst(s: State, k: Key, id: int)
    requires Init(s)
    ensures SpentUpToLast(s, k, id)
  {}

  lemma RunStepKeepsSpentUpToLast(run: seq<State>, labels: seq<Label>, i: nat, k: Key, id: int)
    requires IsRun(run, labels) && i < |labels| && run[0].b.Mysql? && AllInOrder(run, labels) && k.1 >= 1
    requires SpentUpToLast(run[i], k, id)
    ensures SpentUpToLast(run[i + 1], k, id)
  {
    RunKeepsInv(run, labels, i);
    RunStands(run, labels, i);
    RunKeepsOver(run, labels, i, k, id);
    assert InOrder(run[i], labels[i]);
    StepKeepsSpentUpToLast(run[i], labels[i], k, id);
  }

  /**
   * On MySQL the id of a committed batch is given to a new one only after a DELETE /storage since,
   * and only in the very tick of the id: nothing later has been committed in between.
   */
  lemma IdReturnsOnlyInItsTick(run: seq<State>, labels: seq<Label>, i: nat, k: Key, id: int, spent: nat)
    requires IsRun(run, labels) && i < |labels| && run[0].b.Mysql? && AllInOrder(run, labels) && k.1 >= 1
    requires Carried(run[i], labels[i], k) && spent < |run[i].log| && Spends(run[i].log[spent], k, id)
    requires var e := EntryOf(run[i], labels[i].sid); About(e, k, id) && EntryEffect(e).isNew
    ensures ForgottenAfter(Mysql, run[i].log, k, spent)
    ensures run[i].last == id && run[i].sessions[labels[i].sid].ts == id
  {
    RunKeepsInv(run, labels, i);
    RunStands(run, labels, i);
    RunKeepsOver(run, labels, i, k, id);
    RunKeepsSpentUpToLast(run, labels, i, k, id);
    assert InOrder(run[i], labels[i]);
    ReturnedId(run[i], labels[i].sid, id);
    SpentOrForgotten(Mysql, run[i].log, k, id, spent);
  }

  lemma ReturnedId(s: State, sid: int, id: int)
    requires Inv(s) && AllStand(s) && Enabled(s, Commit(sid)) && CommitTables(s.t, DoneOf(s.sessions[sid]).p).Ok?
    requires s.b.Mysql? && CommitsInOrder(s, Commit(sid)) && OverMysql(s, KeyFor(s.b, s.sessions[sid].r), id)
    requires var e := EntryOf(s, sid); About(e, KeyOf(e.x), id) && EntryEffect(e).isNew
    ensures s.sessions[sid].ts == id && s.last <= id
    ensures !Spent(s.b, s.log, KeyFor(s.b, s.sessions[sid].r), id)
  {
    CommitBatches(s, sid);
    NotOver(s, sid, id);
  }

  // ----- refusals -----

  /** `validate`, `append` and `get` refuse a batch alike, whether it is missing or expired. */
  lemma RefusedAlike(x: Context, env: Env, p: Pending, id: int, items: seq<Bso.Item>)
    requires id !in BatchesAt(x, p)
      || BatchesAt(x, p)[id].expiry <= Clock(x, env.validateClock)
    requires env.validateClock <= env.appendClock && env.validateClock <= env.getClock
    ensures OpenBatch(x, env, p, Some(id)).r == Err(BatchNotFound)
    ensures AppendToBatch(x, p, id, items, env.appendClock) == Err(BatchNotFound)
    ensures FinishBatch(x, env, p, id) == Done(p, Err(BatchNotFound))
  {}
}
