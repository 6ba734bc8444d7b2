/** When MySQL hands out the id of a batch, which is a timestamp, and whether it can do so once more. */
module BatchReturns {
  import opened Wrappers
  import opened Store
  import opened Handlers
  import opened Footprint
  import opened Protocol
  import opened Versions
  import opened BatchLife
  import opened BatchRuns
  import opened BatchOnce
  import BatchString

  /** The step commits a POST that creates a batch of that id. */
  predicate HandsOut(s: State, l: Label, k: Key, id: int) {
    Carried(s, l, k) && About(EntryOf(s, l.sid), k, id) && EntryEffect(EntryOf(s, l.sid)).isNew
  }

  /** The step commits a POST that names no batch. */
  predicate Creates(s: State, l: Label, k: Key) {
    Carried(s, l, k) && s.sessions[l.sid].r.action.PostBatch? && s.sessions[l.sid].r.action.batch.None?
  }

  /** A session that creates a batch hands out its own timestamp, and nothing else. */
  lemma HandsOutItsTimestamp(s: State, l: Label, k: Key, id: int)
    requires Inv(s) && s.b.Mysql? && Creates(s, l, k)
    ensures HandsOut(s, l, k, id) <==> s.sessions[l.sid].ts == id
  {
    var session := s.sessions[l.sid];
    assert SessionInv(s.b, s.t, session);
  }

  /** The collection's version is missing or below the id, and no open batch has it. */
  predicate Vacant(s: State, k: Key, id: int) {
    id > 0 && (VersionIn(s, k).Some? ==> VersionIn(s, k).value < id) && id !in CollectionAt(s.t, k).batches
  }

  lemma HandedOutWasVacant(s: State, l: Label, k: Key, id: int)
    requires Inv(s) && AllStand(s) && s.b.Mysql? && HandsOut(s, l, k, id)
    ensures Vacant(s, k, id) && s.sessions[l.sid].ts == id
  {
    CommitBatches(s, l.sid);
  }

  /** A POST without records to a new batch. */
  function NewBatchRequest(k: Key): Request
    requires 0 <= k.0 < 0x1_0000_0000
  {
    Request(k.0, k.1, None, Anytime, PostBatch(None, false, [], {}))
  }

  /** After the session of the request has been opened and has locked its collection, at timestamp `id`. */
  function AfterLock(s: State, sid: int, r: Request, id: int): State {
    var seen := VersionIn(s, KeyFor(s.b, r));
    s.(sessions := s.sessions[sid := Session(r, id, Locked(seen))])
  }

  lemma OpensAndLocks(s: State, sid: int, r: Request, id: int)
    requires s.b.Mysql? && sid !in s.sessions && r.c >= 1 && Safe(s.b, r.u) && id > 0
    requires Free(s, KeyFor(s.b, r))
    requires VersionIn(s, KeyFor(s.b, r)).Some? ==> VersionIn(s, KeyFor(s.b, r)).value < id
    ensures var open, lock := Open(sid, r, id), Lock(sid, 1);
      && Enabled(s, open) && Enabled(Step(s, open), lock) && Step(Step(s, open), lock) == AfterLock(s, sid, r, id)
  {
    var s1 := Step(s, Open(sid, r, id));
    forall i | i in s1.sessions && Holding(s1, i)
      ensures KeyFor(s1.b, s1.sessions[i].r) != KeyFor(s.b, r)
    {
      assert Holding(s, i);
    }
    SetTwice(s.sessions, sid, Session(r, id, Opened), AfterLock(s, sid, r, id).sessions[sid]);
  }

  function AfterAct(s: State, sid: int, r: Request, id: int, uuid: int): State {
    var seen, x := VersionIn(s, KeyFor(s.b, r)), ContextOf(s.b, s.t, r.u, r.c, id);
    s.(sessions := s.sessions[sid := Session(r, id, Acted(seen, x, Calm(uuid)))], uuids := s.uuids + {uuid})
  }

  lemma Acts(s: State, sid: int, r: Request, id: int, uuid: int)
    requires uuid !in s.uuids
    ensures var act, s2 := Act(sid, Calm(uuid)), AfterLock(s, sid, r, id);
      Enabled(s2, act) && Step(s2, act) == AfterAct(s, sid, r, id, uuid)
  {
    SetTwice(s.sessions, sid, AfterLock(s, sid, r, id).sessions[sid], AfterAct(s, sid, r, id, uuid).sessions[sid]);
  }

  lemma CreationPasses(x: Context, uuid: int, seen: Option<int>, k: Key)
    requires x.b.Mysql? && x.ts !in x.found.batches && 0 <= k.0 < 0x1_0000_0000
    ensures var done := CheckThenAct(x, Calm(uuid), seen, NewBatchRequest(k));
      Versions.Passed(done) && done.p == HandleBatch(x, Calm(uuid), NOTHING, None, false, [], {}).p
  {}

  lemma CreationCommits(t: Tables, x: Context, env: Env)
    requires x.b.Mysql?
    ensures CommitTables(t, HandleBatch(x, env, NOTHING, None, false, [], {}).p).Ok?
  {
    CommitWithoutMutations(t, HandleBatch(x, env, NOTHING, None, false, [], {}).p);
  }

  lemma CreationIsCarried(s: State, sid: int, k: Key, id: int, uuid: int)
    requires s.b.Mysql? && 0 <= k.0 < 0x1_0000_0000 && Vacant(s, k, id)
    ensures Creates(AfterAct(s, sid, NewBatchRequest(k), id, uuid), Commit(sid), k)
  {
    var r := NewBatchRequest(k);
    var x := ContextOf(s.b, s.t, r.u, r.c, id);
    ActedSession(s, sid, r, id, uuid);
    CreationPasses(x, uuid, VersionIn(s, k), k);
    CreationCommits(s.t, x, Calm(uuid));
  }

  lemma ActedSession(s: State, sid: int, r: Request, id: int, uuid: int)
    ensures var s3 := AfterAct(s, sid, r, id, uuid);
      && s3.b == s.b && s3.t == s.t && sid in s3.sessions && s3.sessions[sid].r == r
      && s3.sessions[sid].phase == Acted(VersionIn(s, KeyFor(s.b, r)), ContextOf(s.b, s.t, r.u, r.c, id), Calm(uuid))
  {}

  // ----- both ways -----

  /** A session can be opened that goes on, with no other step in between, to be handed the id. */
  predicate HandsOutNext(s: State, sid: int, r: Request, ts: int, clock: int, env: Env, k: Key, id: int) {
    var open, lock, act := Open(sid, r, ts), Lock(sid, clock), Act(sid, env);
    && Enabled(s, open)
    && Enabled(Step(s, open), lock)
    && Enabled(Step(Step(s, open), lock), act)
    && HandsOut(Step(Step(Step(s, open), lock), act), Commit(sid), k, id)
  }

  ghost predicate CanBeHandedOut(s: State, k: Key, id: int) {
    exists sid, r, ts, clock, env :: HandsOutNext(s, sid, r, ts, clock, env, k, id)
  }

  lemma NotAmong(s: set<int>) returns (i: int)
    ensures i !in s
  {
    if s == {} {
      i := 0;
    } else {
      i := Max(s) + 1;
    }
  }

  lemma VacantIsHandedOut(s: State, k: Key, id: int)
    requires Inv(s) && s.b.Mysql? && Free(s, k) && 0 <= k.0 < 0x1_0000_0000 && k.1 >= 1 && Vacant(s, k, id)
    ensures CanBeHandedOut(s, k, id)
  {
    var sid := NotAmong(s.sessions.Keys);
    var uuid := NotAmong(s.uuids);
    var r := NewBatchRequest(k);
    OpensAndLocks(s, sid, r, id);
    Acts(s, sid, r, id, uuid);
    CreationIsCarried(s, sid, k, id, uuid);
    var open, lock, act := Open(sid, r, id), Lock(sid, 1), Act(sid, Calm(uuid));
    StepKeepsInv(s, open);
    StepKeepsInv(Step(s, open), lock);
    StepKeepsInv(AfterLock(s, sid, r, id), act);
    HandsOutItsTimestamp(AfterAct(s, sid, r, id, uuid), Commit(sid), k, id);
    assert HandsOutNext(s, sid, r, id, 1, Calm(uuid), k, id);
  }

  lemma SameTablesStand(s: State, s': State)
    requires AllStand(s) && s'.b == s.b && s'.t == s.t && s'.log == s.log
    ensures AllStand(s')
  {
    forall k, id
      ensures StandsFor(s', k, id)
    {
      assert StandsFor(s, k, id);
    }
  }

  lemma HandedOutNextIsVacant(s: State, k: Key, id: int)
    requires Inv(s) && AllStand(s) && s.b.Mysql? && CanBeHandedOut(s, k, id)
    ensures Vacant(s, k, id)
  {
    var sid, r, ts, clock, env :| HandsOutNext(s, sid, r, ts, clock, env, k, id);
    var s1 := Step(s, Open(sid, r, ts));
    var s2 := Step(s1, Lock(sid, clock));
    QuietStep(s, Open(sid, r, ts));
    QuietStep(s1, Lock(sid, clock));
    QuietStep(s2, Act(sid, env));
    HandedOutWasVacant(Step(s2, Act(sid, env)), Commit(sid), k, id);
  }

  lemma QuietStep(s: State, l: Label)
    requires Inv(s) && AllStand(s) && Enabled(s, l) && (l.Open? || l.Lock? || l.Act?)
    ensures var s' := Step(s, l); Inv(s') && AllStand(s') && s'.b == s.b && s'.t == s.t
  {
    StepKeepsInv(s, l);
    SameTablesStand(s, Step(s, l));
  }

  /**
   * MySQL, in every state of every run in which nobody holds the collection: the id, be it that of
   * a batch that has long been committed, can be handed out next if and only if the collection's
   * version is missing or below it and no open batch has it.
   */
  lemma IdReturnsExactly(run: seq<State>, labels: seq<Label>, i: nat, k: Key, id: int)
    requires IsRun(run, labels) && i < |run| && run[0].b.Mysql?
    requires Free(run[i], k) && 0 <= k.0 < 0x1_0000_0000 && k.1 >= 1
    ensures CanBeHandedOut(run[i], k, id) <==> Vacant(run[i], k, id)
  {
    RunKeepsInv(run, labels, i);
    RunStands(run, labels, i);
    if Vacant(run[i], k, id) { VacantIsHandedOut(run[i], k, id); }
    if CanBeHandedOut(run[i], k, id) { HandedOutNextIsVacant(run[i], k, id); }
  }

  /** A step of a run hands out the id exactly if it creates a batch at that timestamp, for which it must be vacant. */
  lemma RunHandsOutExactly(run: seq<State>, labels: seq<Label>, i: nat, k: Key, id: int)
    requires IsRun(run, labels) && i < |labels| && run[0].b.Mysql? && Carried(run[i], labels[i], k)
    ensures HandsOut(run[i], labels[i], k, id)
      <==> Creates(run[i], labels[i], k) && run[i].sessions[labels[i].sid].ts == id
    ensures HandsOut(run[i], labels[i], k, id) ==> Vacant(run[i], k, id)
  {
    RunKeepsInv(run, labels, i);
    RunStands(run, labels, i);
    if HandsOut(run[i], labels[i], k, id) { HandedOutWasVacant(run[i], labels[i], k, id); }
    if Creates(run[i], labels[i], k) { HandsOutItsTimestamp(run[i], labels[i], k, id); }
  }
}
