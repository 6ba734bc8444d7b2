/** Requests that interleave come to the same as the requests one after the other, in the order of their commits. */
module Serial {
  import opened Wrappers
  import opened Bso
  import opened Store
  import opened Handlers
  import opened Footprint
  import opened Protocol
  import opened Versions
  import BatchString

  function Served(b: Backend, t: Tables, e: Entry): Tables {
    match e
    case Served(r, x, env) => Handlers.Served(b, t, x.ts, env, false, r).0
    case Wiped(u) => View(t, DeleteStorage(b, t, u))
  }

  /** The tables after the entries of a log, each request served on its own. */
  function Replay(b: Backend, t: Tables, log: seq<Entry>): Tables {
    if |log| == 0 then t else Served(b, Replay(b, t, log[..|log| - 1]), log[|log| - 1])
  }

  lemma ReplaySnoc(b: Backend, t: Tables, log: seq<Entry>, e: Entry)
    ensures Replay(b, t, log + [e]) == Served(b, Replay(b, t, log), e)
  {}

  // ----- other collections only show in the storage timestamp of a DELETE -----

  lemma {:induction false} PostEachElsewhere(x: Context, x': Context, p: Pending, items: seq<Item>, faulty: set<string>)
    requires x' == x.(versions := x'.versions)
    ensures PostEach(x', p, items, faulty) == PostEach(x, p, items, faulty)
  {
    if |items| > 0 { PostEachElsewhere(x, x', p, items[..|items| - 1], faulty); }
  }

  lemma CommitBatchElsewhere(x: Context, x': Context, p: Pending, id: int, faulty: set<string>)
    requires x' == x.(versions := x'.versions) && id in BatchesAt(x, p)
    ensures CommitBatch(x', p, id, faulty) == CommitBatch(x, p, id, faulty)
  {
    match BatchesAt(x, p)[id].content
    case Text(bsos) =>
      var items := BatchString.BatchStringToBsos(bsos);
      if items.Ok? { PostEachElsewhere(x, x', p, items.value, faulty); }
    case Children(children) =>
  }

  lemma OpenBatchElsewhere(x: Context, x': Context, env: Env, batch: Option<int>)
    requires x' == x.(versions := x'.versions)
    ensures OpenBatch(x', env, NOTHING, batch) == OpenBatch(x, env, NOTHING, batch)
  {}

  lemma StoreItemsElsewhere(x: Context, x': Context, env: Env, p: Pending, id: int, commit: bool, items: seq<Item>)
    requires x' == x.(versions := x'.versions)
    ensures StoreItems(x', env, p, id, commit, items) == StoreItems(x, env, p, id, commit, items)
  {
    PostEachElsewhere(x, x', p, items, env.faulty);
  }

  lemma FinishBatchElsewhere(x: Context, x': Context, env: Env, p: Pending, id: int)
    requires x' == x.(versions := x'.versions)
    ensures FinishBatch(x', env, p, id) == FinishBatch(x, env, p, id)
  {
    if ValidBatch(x, p, id, env.getClock) { CommitBatchElsewhere(x, x', p, id, env.faulty); }
  }

  lemma HandleBatchElsewhere(x: Context, x': Context, env: Env, batch: Option<int>, commit: bool, items: seq<Item>,
                             invalid: set<string>)
    requires x' == x.(versions := x'.versions)
    ensures HandleBatch(x', env, NOTHING, batch, commit, items, invalid)
         == HandleBatch(x, env, NOTHING, batch, commit, items, invalid)
  {
    OpenBatchElsewhere(x, x', env, batch);
    var upload := OpenBatch(x, env, NOTHING, batch);
    if upload.r.Ok? {
      var id := upload.r.value;
      StoreItemsElsewhere(x, x', env, upload.p, id, commit, items);
      FinishBatchElsewhere(x, x', env, StoreItems(x, env, upload.p, id, commit, items).p, id);
    }
  }

  /** The same answer, but perhaps for the storage timestamp in its body. */
  predicate SameBut(r: Result<Reply>, r': Result<Reply>) {
    if r.Ok? then r'.Ok? && r'.value == r.value.(modified := r'.value.modified) else r' == r
  }

  lemma HandleElsewhere(x: Context, x': Context, env: Env, action: Action)
    requires x' == x.(versions := x'.versions)
    ensures var done, done' := Handle(x, env, NOTHING, action), Handle(x', env, NOTHING, action);
      done'.p == done.p && SameBut(done.r, done'.r) && (!action.DelCollection? ==> done' == done)
  {
    match action
    case Post(items, invalid) => PostEachElsewhere(x, x', NOTHING, items, env.faulty);
    case PostBatch(batch, commit, items, invalid) => HandleBatchElsewhere(x, x', env, batch, commit, items, invalid);
    case _ =>
  }

  lemma CheckElsewhere(x: Context, x': Context, env: Env, seen: Option<int>, r: Request)
    requires x' == x.(versions := x'.versions)
    requires Lookup(x'.versions, TouchedKey(x)) == Lookup(x.versions, TouchedKey(x))
    ensures var done, done' := CheckThenAct(x, env, seen, r), CheckThenAct(x', env, seen, r);
      done'.p == done.p && SameBut(done.r, done'.r) && (!r.action.DelCollection? ==> done' == done)
  {
    HandleElsewhere(x, x', env, r.action);
  }

  // ----- a commit is the request served alone -----

  /**
   * What a session has prepared while others were at work is what it would do if it were served
   * alone at the moment it commits: the same tables and the same answer.
   */
  lemma CommitIsServedAlone(s: State, sid: int)
    requires Inv(s) && Enabled(s, Commit(sid)) && CommitTables(s.t, DoneOf(s.sessions[sid]).p).Ok?
    ensures var session := s.sessions[sid];
      var alone := Handlers.Served(s.b, s.t, session.ts, session.phase.env, false, session.r);
      && alone.0 == Step(s, Commit(sid)).t
      && SameBut(DoneOf(session).r, alone.1) && (!session.r.action.DelCollection? ==> alone.1 == DoneOf(session).r)
  {
    var session := s.sessions[sid];
    assert SessionInv(s.b, s.t, session);
    var x' := ContextOf(s.b, s.t, session.r.u, session.r.c, session.ts);
    assert TouchedKey(x') == KeyFor(s.b, session.r);
    CheckElsewhere(session.phase.x, x', session.phase.env, session.phase.seen, session.r);
  }

  /** No version of the user has changed since the session looked at them. */
  ghost predicate NothingMoved(s: State, x: Context) {
    forall j: Key | j.0 == KeyOf(x).0 :: Lookup(x.versions, j) == Lookup(s.t.versions, j)
  }

  lemma SameStorageTimestamp(b: Backend, versions: map<Key, int>, versions': map<Key, int>, user: int)
    requires forall j: Key | j.0 == user :: Lookup(versions, j) == Lookup(versions', j)
    ensures StorageTimestamp(b, versions, user) == StorageTimestamp(b, versions', user)
  {
    forall v
      ensures v in UserVersions(b, versions, user) <==> v in UserVersions(b, versions', user)
    {
      if v in UserVersions(b, versions, user) {
        var j :| j in versions && j.0 == user && Visible(b, Some(versions[j])).Some? && versions[j] == v;
        assert Lookup(versions, j) == Lookup(versions', j);
      }
      if v in UserVersions(b, versions', user) {
        var j :| j in versions' && j.0 == user && Visible(b, Some(versions'[j])).Some? && versions'[j] == v;
        assert Lookup(versions, j) == Lookup(versions', j);
      }
    }
    assert UserVersions(b, versions, user) == UserVersions(b, versions', user);
  }

  lemma SameStorageTime(x: Context, x': Context, p: Pending)
    requires x' == x.(versions := x'.versions)
    requires forall j: Key | j.0 == KeyOf(x).0 :: Lookup(x.versions, j) == Lookup(x'.versions, j)
    ensures StorageTime(x', p) == StorageTime(x, p)
  {
    forall j: Key | j.0 == KeyOf(x).0
      ensures Lookup(Overlay(x.versions, p.versions), j) == Lookup(Overlay(x'.versions, p.versions), j)
    {
      OverlayAt(x.versions, p.versions, j);
      OverlayAt(x'.versions, p.versions, j);
    }
    SameStorageTimestamp(x.b, Overlay(x.versions, p.versions), Overlay(x'.versions, p.versions), KeyOf(x).0);
  }

  lemma SameDelete(x: Context, x': Context)
    requires x' == x.(versions := x'.versions)
    requires forall j: Key | j.0 == KeyOf(x).0 :: Lookup(x.versions, j) == Lookup(x'.versions, j)
    ensures HandleDelete(x', NOTHING) == HandleDelete(x, NOTHING)
  {
    SameStorageTime(x, x', NOTHING);
    if Exists(x, NOTHING) { SameStorageTime(x, x', DeleteCollection(x, NOTHING)); }
  }

  lemma SameCheckedDelete(x: Context, x': Context, env: Env, seen: Option<int>, r: Request)
    requires x' == x.(versions := x'.versions) && r.action.DelCollection?
    requires Lookup(x'.versions, TouchedKey(x)) == Lookup(x.versions, TouchedKey(x))
    requires forall j: Key | j.0 == KeyOf(x).0 :: Lookup(x.versions, j) == Lookup(x'.versions, j)
    ensures CheckThenAct(x', env, seen, r) == CheckThenAct(x, env, seen, r)
  {
    SameDelete(x, x');
  }

  /** The answer to a DELETE is so too, unless a version of the user has moved since the session looked. */
  lemma DeleteIsAnsweredAlone(s: State, sid: int)
    requires Inv(s) && Enabled(s, Commit(sid)) && CommitTables(s.t, DoneOf(s.sessions[sid]).p).Ok?
    requires s.sessions[sid].r.action.DelCollection? && NothingMoved(s, s.sessions[sid].phase.x)
    ensures var session := s.sessions[sid];
      Handlers.Served(s.b, s.t, session.ts, session.phase.env, false, session.r).1 == DoneOf(session).r
  {
    var session := s.sessions[sid];
    assert SessionInv(s.b, s.t, session);
    var x' := ContextOf(s.b, s.t, session.r.u, session.r.c, session.ts);
    assert TouchedKey(x') == KeyFor(s.b, session.r);
    SameCheckedDelete(session.phase.x, x', session.phase.env, session.phase.seen, session.r);
  }

  lemma RunStepIsSerial(run: seq<State>, labels: seq<Label>, i: nat)
    requires IsRun(run, labels) && i < |labels|
    requires run[i].t == Replay(run[0].b, run[0].t, run[i].log)
    ensures run[i + 1].t == Replay(run[0].b, run[0].t, run[i + 1].log)
  {
    RunKeepsInv(run, labels, i);
    StepIsSerial(run[i], labels[i], run[0].t);
  }

  /** Every run leaves the tables that its committed requests leave one after the other. */
  lemma {:induction false} RunIsSerial(run: seq<State>, labels: seq<Label>, i: nat)
    requires IsRun(run, labels) && i < |run|
    ensures run[i].t == Replay(run[0].b, run[0].t, run[i].log)
  {
    if i > 0 {
      RunIsSerial(run, labels, i - 1);
      RunStepIsSerial(run, labels, i - 1);
    }
  }

  lemma CommitIsSerial(s: State, sid: int, t: Tables)
    requires Inv(s) && Enabled(s, Commit(sid)) && s.t == Replay(s.b, t, s.log)
    requires CommitTables(s.t, DoneOf(s.sessions[sid]).p).Ok?
    ensures Step(s, Commit(sid)).t == Replay(s.b, t, Step(s, Commit(sid)).log)
  {
    var session := s.sessions[sid];
    CommitIsServedAlone(s, sid);
    assert SessionInv(s.b, s.t, session);
    ReplaySnoc(s.b, t, s.log, Entry.Served(session.r, session.phase.x, session.phase.env));
  }

  lemma StepIsSerial(s: State, l: Label, t: Tables)
    requires Inv(s) && Enabled(s, l) && s.t == Replay(s.b, t, s.log)
    ensures Step(s, l).t == Replay(s.b, t, Step(s, l).log)
  {
    if l.Commit? {
      if CommitTables(s.t, DoneOf(s.sessions[l.sid]).p).Ok? { CommitIsSerial(s, l.sid, t); }
    } else if l.Wipe? {
      ReplaySnoc(s.b, t, s.log, Wiped(l.u));
    }
  }

  // ----- the tables are all or nothing -----

  /**
   * A request served alone either leaves the tables as they are or commits everything that the
   * action did; if it answers that the precondition has failed, or does not answer, nothing changes.
   */
  lemma AllOrNothing(b: Backend, t: Tables, ts: int, env: Env, commitFails: bool, r: Request)
    ensures var (t', reply) := Handlers.Served(b, t, ts, env, commitFails, r);
      var x := ContextOf(b, t, r.u, r.c, ts);
      && (reply.Err? ==> t' == t)
      && (reply.Ok? && (reply.value.status.NotModified? || reply.value.status.PreconditionFailed?) ==> t' == t)
      && (t' != t ==> CommitTables(t, Handle(x, env, NOTHING, r.action).p) == Ok(t'))
  {
    CommitNothing(t);
    HandlePasses(ContextOf(b, t, r.u, r.c, ts), env, r.action);
  }

  /** None of the user's other collections is later than the session. */
  ghost predicate NoneLater(t: Tables, x: Context) {
    forall k: Key | k in t.versions && k.0 == KeyOf(x).0 && k != KeyOf(x) && k != TombstoneKey(x) ::
      t.versions[k] <= x.ts
  }

  function DeletedVersion(t: Tables, x: Context, k: Key): Option<int> {
    if k == KeyOf(x) then None else if k == TombstoneKey(x) then Some(x.ts) else Lookup(t.versions, k)
  }

  /**
   * What a DELETE answers: on MySQL always the new storage timestamp, on Spanner the session's
   * timestamp, which is the new storage timestamp exactly if none of the user's other collections
   * is later.
   */
  lemma DeleteAnswers(b: Backend, t: Tables, u: U64, c: int, ts: int)
    requires Safe(b, u) && c >= 1 && ts > 0
    requires Exists(ContextOf(b, t, u, c, ts), NOTHING)
    requires CommitTables(t, DeleteCollection(ContextOf(b, t, u, c, ts), NOTHING)).Ok?
    ensures var x := ContextOf(b, t, u, c, ts);
      var t' := CommitTables(t, DeleteCollection(x, NOTHING)).value;
      var now := StorageTimestamp(b, t'.versions, StoredUser(b, u));
      var answer := HandleDelete(x, NOTHING).r.value.modified;
      answer == Some(now) <==> b.Mysql? || NoneLater(t, x)
  {
    var x := ContextOf(b, t, u, c, ts);
    DeletedTables(t, x);
    if b.Spanner? { SpannerAnswer(t, x, CommitTables(t, DeleteCollection(x, NOTHING)).value); }
  }

  lemma SpannerAnswer(t: Tables, x: Context, t': Tables)
    requires Sound(x) && x.b.Spanner? && x.ts > 0
    requires forall k :: Lookup(t'.versions, k) == DeletedVersion(t, x, k)
    ensures StorageTimestamp(x.b, t'.versions, KeyOf(x).0) == x.ts <==> NoneLater(t, x)
  {
    var tombstone := TombstoneKey(x);
    assert Lookup(t'.versions, tombstone) == DeletedVersion(t, x, tombstone);
    LatestIs(t'.versions, KeyOf(x).0, tombstone, x.ts);
    forall k: Key | k.0 == KeyOf(x).0 && k != tombstone
      ensures (k in t'.versions ==> t'.versions[k] <= x.ts)
        <==> (k in t.versions && k != KeyOf(x) ==> t.versions[k] <= x.ts)
    {
      assert Lookup(t'.versions, k) == DeletedVersion(t, x, k);
    }
  }

  lemma DeletedTables(t: Tables, x: Context)
    requires Sound(x) && Exists(x, NOTHING) && CommitTables(t, DeleteCollection(x, NOTHING)).Ok?
    requires x.versions == t.versions
    ensures var t' := CommitTables(t, DeleteCollection(x, NOTHING)).value;
      && View(Tables(t.versions, map[], map[]), DeleteCollection(x, NOTHING)).versions == t'.versions
      && forall k :: Lookup(t'.versions, k) == DeletedVersion(t, x, k)
  {
    forall k
      ensures Lookup(Overlay(t.versions, DeleteCollection(x, NOTHING).versions), k) == DeletedVersion(t, x, k)
    {
      DeletedVersionAt(t, x, k);
    }
  }

  lemma DeletedVersionAt(t: Tables, x: Context, k: Key)
    requires Sound(x) && Exists(x, NOTHING)
    ensures Lookup(Overlay(t.versions, DeleteCollection(x, NOTHING).versions), k) == DeletedVersion(t, x, k)
  {}

  /** On Spanner a visible version is the storage timestamp exactly if no other version of the user is later. */
  lemma LatestIs(versions: map<Key, int>, user: int, k: Key, ts: int)
    requires ts > 0 && k.0 == user && Lookup(versions, k) == Some(ts)
    ensures StorageTimestamp(Spanner, versions, user) == ts
      <==> forall j: Key | j.0 == user && j != k :: j in versions ==> versions[j] <= ts
  {
    var s := UserVersions(Spanner, versions, user);
    assert versions[k] in s;
    if StorageTimestamp(Spanner, versions, user) == ts {
      forall j: Key | j.0 == user && j in versions
        ensures versions[j] <= ts
      {
        assert versions[j] > PRETOUCH_TS ==> versions[j] in s;
      }
    } else {
      var m := Max(s);
      var j :| j in versions && j.0 == user && versions[j] == m;
      assert versions[j] > ts;
    }
  }
}
