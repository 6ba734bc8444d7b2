/**
 * A client uploads a batch by the id it is told: each answer names the batch, the next POST that
 * names it is accepted for two hours from its creation, and the commit applies what the answers
 * have listed.
 */
module Uploads {
  import opened Wrappers
  import opened Bso
  import opened Collation
  import opened Store
  import opened Handlers
  import opened Footprint
  import opened Protocol
  import opened Versions
  import opened BatchLife
  import opened BatchRuns
  import opened GenuineRuns
  import opened RowRuns
  import opened Records
  import opened Fields
  import BatchCommit
  import BatchString
  import Told

  function ReplyOf(s: State, l: Label): Reply
    requires l.Commit? && Enabled(s, l)
  {
    DoneOf(s.sessions[l.sid]).r.value
  }

  function BatchesIn(s: State, k: Key): Batches { CollectionAt(s.t, k).batches }

  // ----- the answer to an upload -----

  /** The step commits a POST to a batch without commit. */
  predicate Uploads(s: State, l: Label, k: Key) {
    Carried(s, l, k) && s.sessions[l.sid].r.action.PostBatch? && !s.sessions[l.sid].r.action.commit
  }

  lemma UploadAnswer(x: Context, env: Env, batch: Option<int>, items: seq<Item>, invalid: set<string>)
    ensures var done := HandleBatch(x, env, NOTHING, batch, false, items, invalid);
      done.r.Ok? ==>
        var reply := done.r.value;
        && reply.status == Accepted && reply.batch.Some?
        && reply.batch.value in BatchesAt(x, done.p)
        && (if batch.Some? then reply.batch == batch else reply.batch.value !in x.found.batches)
  {
    OpenBatchEffects(x, env, batch);
    var upload := OpenBatch(x, env, NOTHING, batch);
    if upload.r.Ok? { AppendCallBatches(x, env, upload.p, upload.r.value, items); }
  }

  lemma PassedBatch(x: Context, env: Env, seen: Option<int>, r: Request)
    requires r.action.PostBatch? && Passed(CheckThenAct(x, env, seen, r))
    ensures var action := r.action;
      var handled := HandleBatch(x, env, NOTHING, action.batch, action.commit, action.items, action.invalid);
      && handled.r.Ok? && CheckThenAct(x, env, seen, r).p == handled.p
      && CheckThenAct(x, env, seen, r).r.value == handled.r.value.(
           lastModified := CheckThenAct(x, env, seen, r).r.value.lastModified)
  {}

  /** The client is told the batch it has named, or a new one, and the batch is there. */
  lemma UploadIsAnswered(s: State, l: Label, k: Key)
    requires Inv(s) && AllStand(s) && Uploads(s, l, k)
    ensures var batch, told := s.sessions[l.sid].r.action.batch, ReplyOf(s, l).batch;
      && told.Some? && told.value in BatchesIn(Step(s, l), k)
      && (if batch.Some? then told == batch else told.value !in BatchesIn(s, k))
  {
    var session := s.sessions[l.sid];
    CommitBatches(s, l.sid);
    PassedBatch(session.phase.x, session.phase.env, session.phase.seen, session.r);
    UploadAnswer(session.phase.x, session.phase.env, session.r.action.batch, session.r.action.items,
                 session.r.action.invalid);
  }

  /**
   * A POST that names no batch is answered with a new one, the session's timestamp on MySQL and the id
   * drawn on Spanner, if and only if no batch has that id; otherwise it is a conflict on MySQL.
   */
  lemma BeginsExactly(x: Context, env: Env, items: seq<Item>, invalid: set<string>)
    requires env.fault != Some(Conflict)
    ensures var r := HandleBatch(x, env, NOTHING, None, false, items, invalid).r;
      var id := if x.b.Mysql? then x.ts else env.uuid;
      if id in x.found.batches then r == Err(if x.b.Mysql? then Conflict else Sql)
      else r.Ok? && r.value.batch == Some(id)
  {
    var upload := OpenBatch(x, env, NOTHING, None);
    if upload.r.Ok? && x.b.Spanner? { ChildrenError(map[], items); }
  }

  // ----- what the answers have listed -----

  /** The answer has told the client of that batch. */
  predicate Tells(e: Entry, k: Key, id: int) {
    && On(e, k) && e.r.action.PostBatch? && EntryDone(e).r.Ok?
    && EntryDone(e).r.value.status == Accepted && EntryDone(e).r.value.batch == Some(id)
  }

  /** The records that the answers about a batch have listed as stored since it was new, in order. */
  function Listed(log: seq<Entry>, k: Key, id: int): seq<Item> {
    if |log| == 0 then []
    else
      var before, last := Listed(log[..|log| - 1], k, id), log[|log| - 1];
      if Tells(last, k, id)
      then (if last.r.action.batch.None? then [] else before)
           + Stored(last.r.action.items, EntryDone(last).r.value.success)
      else before
  }

  lemma {:induction false} AllStored(items: seq<Item>, success: seq<string>)
    requires forall i | 0 <= i < |items| :: items[i].id in success
    ensures Stored(items, success) == items
  {
    if |items| > 0 {
      var before := items[..|items| - 1];
      forall i | 0 <= i < |before|
        ensures before[i].id in success
      {
        assert before[i] == items[i];
      }
      AllStored(before, success);
    }
  }

  lemma {:induction false} NoneStored(items: seq<Item>)
    ensures Stored(items, []) == []
  {
    if |items| > 0 { NoneStored(items[..|items| - 1]); }
  }

  lemma ListedAlike(items: seq<Item>)
    ensures Stored(items, IdList(items)) == items && Stored(items, []) == []
  {
    forall i | 0 <= i < |items|
      ensures items[i].id in IdList(items)
    {
      assert IdList(items)[i] == items[i].id;
    }
    AllStored(items, IdList(items));
    NoneStored(items);
  }

  lemma BatchAnswer(x: Context, env: Env, batch: Option<int>, commit: bool, items: seq<Item>, invalid: set<string>)
    ensures var done := HandleBatch(x, env, NOTHING, batch, commit, items, invalid);
      done.r.Ok? ==>
        var reply := done.r.value;
        && reply.batch == (if commit then None else if batch.Some? then batch else Some(NewId(x, env.uuid)))
        && reply.status == (if commit then Success else Accepted)
        && (reply.success == IdList(items) || reply.success == [])
  {}

  lemma EntryTells(e: Entry, k: Key, id: int)
    ensures var effect := EntryEffect(e);
      && (Tells(e, k, id) <==> On(e, k) && effect.Submitted? && effect.id == id)
      && (Tells(e, k, id) ==>
            && effect.isNew == e.r.action.batch.None?
            && effect.items == Stored(e.r.action.items, EntryDone(e).r.value.success))
  {
    if e.Served? && e.r.action.PostBatch? {
      var action := e.r.action;
      BatchAnswer(e.x, e.env, action.batch, action.commit, action.items, action.invalid);
      ListedAlike(action.items);
      if Passed(EntryDone(e)) { PassedBatch(e.x, e.env, Visible(e.x.b, e.x.found.version), e.r); }
    }
  }

  /** What has been uploaded to a batch is what its client has been told. */
  lemma {:induction false} UploadedIsListed(log: seq<Entry>, k: Key, id: int)
    ensures Uploaded(log, k, id) == Listed(log, k, id)
  {
    if |log| > 0 {
      UploadedIsListed(log[..|log| - 1], k, id);
      EntryTells(log[|log| - 1], k, id);
    }
  }

  /** The answer to a commit names no batch, and what it writes are the records that answers have listed. */
  lemma CommitWritesListed(s: State, l: Label, k: Key, batch: int)
    requires Inv(s) && CommitsBatch(s, l, k) && s.sessions[l.sid].r.action.batch == Some(batch)
    ensures var session, reply := s.sessions[l.sid], ReplyOf(s, l);
      var last, listed := Stored(session.r.action.items, reply.success), Listed(s.log, k, batch);
      var faulty := session.phase.env.faulty;
      && reply.batch.None? && DueTo(s, session) == listed
      && WrittenBy(s, l) == if s.b.Mysql? then Without(last, faulty) + Without(listed, faulty) else listed + last
  {
    CommitAnswer(s, l, k);
    UploadedIsListed(s.log, k, batch);
  }

  /**
   * The commit of a batch that the request names, in any run: the answer names no batch, the batch is
   * gone, and every record is as the records leave it that the answers to the uploads have listed,
   * with those of the last POST before them on MySQL and after them on Spanner.
   */
  lemma CommitAppliesListed(run: seq<State>, labels: seq<Label>, n: nat, k: Key, batch: int, id: string)
    requires IsRun(run, labels) && AllGenuine(run, labels) && n < |labels| && k.1 >= 1
    requires run[0].b.Mysql? ==> Apart(RowsIn(run[0], k).Keys)
    requires CommitsBatch(run[n], labels[n], k) && run[n].sessions[labels[n].sid].r.action.batch == Some(batch)
    ensures ReplyOf(run[n], labels[n]).batch.None?
    ensures batch in BatchesIn(run[n], k) && BatchesIn(run[n + 1], k) == BatchesIn(run[n], k) - {batch}
    ensures var s, session, reply := run[n], run[n].sessions[labels[n].sid], ReplyOf(run[n], labels[n]);
      var last, listed := Stored(session.r.action.items, reply.success), Listed(s.log, k, batch);
      var faulty := session.phase.env.faulty;
      LeavesFields(s.b, RecordIn(s, k, id), session.ts,
                   if s.b.Mysql? then Without(last, faulty) + Without(listed, faulty) else listed + last,
                   id, s.b.Spanner? && Named(s.b, listed, id), RecordIn(run[n + 1], k, id))
  {
    RunRowsStep(run, labels, n, k);
    RunStaysApart(run, labels, n, k);
    CommitWritesListed(run[n], labels[n], k, batch);
    WriteLeavesFields(run[n], labels[n], k, id);
    CommitTakesBatch(run[n], labels[n], k, batch);
  }

  lemma CommitTakesBatch(s: State, l: Label, k: Key, batch: int)
    requires Inv(s) && AllStand(s) && CommitsBatch(s, l, k) && s.sessions[l.sid].r.action.batch == Some(batch)
    ensures batch in BatchesIn(s, k) && BatchesIn(Step(s, l), k) == BatchesIn(s, k) - {batch}
  {
    CommitBatches(s, l.sid);
    var session := s.sessions[l.sid];
    PassedBatch(session.phase.x, session.phase.env, session.phase.seen, session.r);
    OpenBatchEffects(session.phase.x, session.phase.env, session.r.action.batch);
  }

  lemma CommitAnswer(s: State, l: Label, k: Key)
    requires Inv(s) && CommitsBatch(s, l, k)
    ensures var action, reply := s.sessions[l.sid].r.action, ReplyOf(s, l);
      && reply.batch.None?
      && PostedItems(action.items, reply) == Stored(action.items, reply.success)
  {
    var session := s.sessions[l.sid];
    var action := session.r.action;
    PassedBatch(session.phase.x, session.phase.env, session.phase.seen, session.r);
    BatchAnswer(session.phase.x, session.phase.env, action.batch, action.commit, action.items, action.invalid);
    ListedAlike(action.items);
  }

  // ----- two hours -----

  /** A new batch expires two hours after the session's timestamp, and an old one when it did before. */
  predicate KeepExpiry(x: Context, after: Batches) {
    forall id | id in after ::
      after[id].expiry == if id in x.found.batches then x.found.batches[id].expiry else x.ts + 7_200_000
  }

  lemma BatchKeepsExpiry(x: Context, env: Env, batch: Option<int>, commit: bool, items: seq<Item>, invalid: set<string>)
    ensures var done := HandleBatch(x, env, NOTHING, batch, commit, items, invalid);
      done.r.Ok? ==> KeepExpiry(x, BatchesAt(x, done.p))
  {
    OpenKeepsExpiry(x, env, batch);
    var upload := OpenBatch(x, env, NOTHING, batch);
    if upload.r.Ok? {
      var id := upload.r.value;
      StoreKeepsExpiry(x, env, upload.p, id, commit, items);
      FinishKeepsExpiry(x, env, StoreItems(x, env, upload.p, id, commit, items).p, id);
    }
  }

  lemma OpenKeepsExpiry(x: Context, env: Env, batch: Option<int>)
    ensures KeepExpiry(x, BatchesAt(x, OpenBatch(x, env, NOTHING, batch).p))
  {}

  lemma StoreKeepsExpiry(x: Context, env: Env, p: Pending, id: int, commit: bool, items: seq<Item>)
    requires KeepExpiry(x, BatchesAt(x, p))
    ensures KeepExpiry(x, BatchesAt(x, StoreItems(x, env, p, id, commit, items).p))
  {
    PostCallBatches(x, env, p, items);
  }

  lemma FinishKeepsExpiry(x: Context, env: Env, p: Pending, id: int)
    requires KeepExpiry(x, BatchesAt(x, p))
    ensures KeepExpiry(x, BatchesAt(x, FinishBatch(x, env, p, id).p))
  {
    if ValidBatch(x, p, id, env.getClock) {
      match BatchesAt(x, p)[id].content
      case Text(bsos) =>
        var items := BatchString.BatchStringToBsos(bsos);
        if items.Ok? { PostEachIsPutAll(x, p, items.value, env.faulty); }
      case Children(children) =>
    }
  }

  lemma ServedKeepsExpiry(x: Context, env: Env, seen: Option<int>, r: Request)
    requires CheckThenAct(x, env, seen, r).r.Ok?
    ensures KeepExpiry(x, BatchesAt(x, CheckThenAct(x, env, seen, r).p))
  {
    match r.action
    case PostBatch(batch, commit, items, invalid) => BatchKeepsExpiry(x, env, batch, commit, items, invalid);
    case _ => OtherBatches(x, env, r.action);
  }

  lemma StepKeepsExpiry(s: State, l: Label, k: Key, id: int)
    requires Inv(s) && AllStand(s) && Enabled(s, l) && id in BatchesIn(s, k) && id in BatchesIn(Step(s, l), k)
    ensures BatchesIn(Step(s, l), k)[id].expiry == BatchesIn(s, k)[id].expiry
  {
    if l.Commit? && CommitTables(s.t, DoneOf(s.sessions[l.sid]).p).Ok? {
      if KeyFor(s.b, s.sessions[l.sid].r) == k {
        CommitBatches(s, l.sid);
        var session := s.sessions[l.sid];
        ServedKeepsExpiry(session.phase.x, session.phase.env, session.phase.seen, session.r);
      } else {
        CommitBatchesElsewhere(s, l.sid, k);
      }
    } else if l.Wipe? {
      WipeAt(s.b, s.t, l.u, k);
    }
  }

  function ExpiryIn(s: State, k: Key, id: int): Option<int> {
    if id in BatchesIn(s, k) then Some(BatchesIn(s, k)[id].expiry) else None
  }

  /** The batch is neither committed nor deleted between the two states. */
  predicate StaysOpen(run: seq<State>, k: Key, id: int, i: nat, j: nat)
    requires j < |run|
  {
    forall m | i <= m <= j :: id in BatchesIn(run[m], k)
  }

  lemma {:induction false} SameExpiry(run: seq<State>, k: Key, id: int, i: nat, j: nat)
    requires i <= j < |run|
    requires forall m | i <= m < j :: ExpiryIn(run[m + 1], k, id) == ExpiryIn(run[m], k, id)
    ensures ExpiryIn(run[j], k, id) == ExpiryIn(run[i], k, id)
    decreases j
  {
    if i < j { SameExpiry(run, k, id, i, j - 1); }
  }

  lemma ExpiryStays(run: seq<State>, labels: seq<Label>, k: Key, id: int, i: nat, j: nat)
    requires IsRun(run, labels) && i <= j < |run| && StaysOpen(run, k, id, i, j)
    ensures ExpiryIn(run[j], k, id) == ExpiryIn(run[i], k, id)
  {
    forall m | i <= m < j
      ensures ExpiryIn(run[m + 1], k, id) == ExpiryIn(run[m], k, id)
    {
      RunStepKeepsExpiry(run, labels, k, id, m);
    }
    SameExpiry(run, k, id, i, j);
  }

  lemma RunStepKeepsExpiry(run: seq<State>, labels: seq<Label>, k: Key, id: int, n: nat)
    requires IsRun(run, labels) && n < |labels| && id in BatchesIn(run[n], k) && id in BatchesIn(run[n + 1], k)
    ensures ExpiryIn(run[n + 1], k, id) == ExpiryIn(run[n], k, id)
  {
    RunKeepsInv(run, labels, n);
    RunStands(run, labels, n);
    StepKeepsExpiry(run[n], labels[n], k, id);
  }

  /** The step creates a batch and tells its client the id. */
  predicate Begins(s: State, l: Label, k: Key, id: int) {
    Uploads(s, l, k) && s.sessions[l.sid].r.action.batch.None? && ReplyOf(s, l).batch == Some(id)
  }

  lemma BegunExpiresInTwoHours(s: State, l: Label, k: Key, id: int)
    requires Inv(s) && AllStand(s) && Begins(s, l, k, id)
    ensures id in BatchesIn(Step(s, l), k)
    ensures BatchesIn(Step(s, l), k)[id].expiry == s.sessions[l.sid].ts + 7_200_000
  {
    UploadIsAnswered(s, l, k);
    CommitBatches(s, l.sid);
    var session := s.sessions[l.sid];
    ServedKeepsExpiry(session.phase.x, session.phase.env, session.phase.seen, session.r);
  }

  /** A session that has acted on a POST to that batch, and whose precondition holds. */
  predicate Names(s: State, sid: int, k: Key, id: int) {
    && sid in s.sessions && s.sessions[sid].phase.Acted? && KeyFor(s.b, s.sessions[sid].r) == k
    && var Session(r, _, phase) := s.sessions[sid];
       && r.action.PostBatch? && r.action.batch == Some(id)
       && Told.Meets(r.precondition, Told.TimeOf(s, k, r.bso, phase.env.checkClock))
  }

  /** The time by which the batch must not have expired: on Spanner the clock is read at each query. */
  predicate InTime(s: State, sid: int, expiry: int)
    requires sid in s.sessions && s.sessions[sid].phase.Acted? && s.sessions[sid].r.action.PostBatch?
  {
    var Session(r, ts, phase) := s.sessions[sid];
    if s.b.Mysql? then ts < expiry
    else phase.env.validateClock < expiry && (r.action.commit ==> phase.env.getClock < expiry)
  }

  lemma {:induction false} ChildrenError(children: BatchCommit.Children, items: seq<Item>)
    ensures AddChildren(children, items).Err? ==> AddChildren(children, items) == Err(Sql)
  {
    if |items| > 0 { ChildrenError(children, items[..|items| - 1]); }
  }

  lemma NamedIsUploaded(x: Context, env: Env, id: int, items: seq<Item>, invalid: set<string>)
    requires id in x.found.batches && env.fault != Some(Conflict)
    ensures var r := HandleBatch(x, env, NOTHING, Some(id), false, items, invalid).r;
      && (r.Ok? <==> Clock(x, env.validateClock) < x.found.batches[id].expiry)
      && (r.Err? ==> r.error == BatchNotFound)
  {
    match x.found.batches[id].content
    case Text(bsos) =>
    case Children(children) => ChildrenError(children, items);
  }

  lemma NamedIsCommitted(x: Context, env: Env, id: int, items: seq<Item>, invalid: set<string>, uploaded: seq<Item>)
    requires id in x.found.batches && Decodes(x.b, x.found.batches[id].content, uploaded)
    requires env.fault != Some(Conflict)
    ensures var r, expiry := HandleBatch(x, env, NOTHING, Some(id), true, items, invalid).r, x.found.batches[id].expiry;
      && (r.Ok? <==> Clock(x, env.validateClock) < expiry && Clock(x, env.getClock) < expiry)
      && (r.Err? ==> r.error == BatchNotFound)
  {
    OpenBatchReady(x, env, Some(id), uploaded);
    StoreItemsReady(x, env, NOTHING, id, items, uploaded);
    StoreKeepsExpiry(x, env, NOTHING, id, true, items);
    var stored := StoreItems(x, env, NOTHING, id, true, items);
    FinishApplies(x, env, stored.p, id, if stored.r.Ok? then items else [], uploaded, x.found.batches);
    NoConflict(x, env, id, items);
  }

  lemma NoConflict(x: Context, env: Env, id: int, items: seq<Item>)
    requires env.fault != Some(Conflict)
    ensures StoreItems(x, env, NOTHING, id, true, items).r != Err(Conflict)
  {}

  lemma NextAnswer(s: State, sid: int, k: Key, id: int)
    requires Inv(s) && AllStand(s) && Names(s, sid, k, id) && id in BatchesIn(s, k)
    requires s.sessions[sid].phase.env.fault != Some(Conflict)
    ensures DoneOf(s.sessions[sid]).r.Ok? <==> InTime(s, sid, BatchesIn(s, k)[id].expiry)
    ensures DoneOf(s.sessions[sid]).r.Err? ==> DoneOf(s.sessions[sid]).r == Err(BatchNotFound)
  {
    var session := s.sessions[sid];
    assert SessionInv(s.b, s.t, session);
    assert StandsFor(s, k, id);
    Told.PreconditionDecides(s, sid);
    var x, env, items, invalid := session.phase.x, session.phase.env, session.r.action.items, session.r.action.invalid;
    if session.r.action.commit {
      NamedIsCommitted(x, env, id, items, invalid, Uploaded(s.log, k, id));
    } else {
      NamedIsUploaded(x, env, id, items, invalid);
    }
  }

  /**
   * In any run: a client has begun a batch at `ts`, and been told its id. As long as the batch is
   * neither committed nor deleted, a POST that names it, with commit or without, is accepted if and
   * only if it comes before `ts` and 7,200,000 milliseconds; otherwise the batch is not found.
   */
  lemma AcceptedForTwoHours(run: seq<State>, labels: seq<Label>, m: nat, n: nat, k: Key, id: int, sid: int)
    requires IsRun(run, labels) && m < n < |run|
    requires Begins(run[m], labels[m], k, id) && StaysOpen(run, k, id, m + 1, n)
    requires Names(run[n], sid, k, id) && run[n].sessions[sid].phase.env.fault != Some(Conflict)
    ensures var answer := DoneOf(run[n].sessions[sid]).r;
      && (answer.Ok? <==> InTime(run[n], sid, run[m].sessions[labels[m].sid].ts + 7_200_000))
      && (answer.Err? ==> answer == Err(BatchNotFound))
  {
    RunKeepsInv(run, labels, m);
    RunStands(run, labels, m);
    RunKeepsInv(run, labels, n);
    RunStands(run, labels, n);
    BegunExpiresInTwoHours(run[m], labels[m], k, id);
    ExpiryStays(run, labels, k, id, m + 1, n);
    NextAnswer(run[n], sid, k, id);
  }
}
