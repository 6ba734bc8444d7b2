/**
 * Requests at work at the same time. Each is a run of steps over shared tables (get a session,
 * lock, check the precondition and act, commit or roll back), and the steps of different requests
 * interleave in any way. What is taken for granted of the database: a write lock on a
 * collection excludes others from the lock to the end of the transaction, and a commit is atomic.
 */
module Protocol {
  import opened Wrappers
  import opened Bso
  import opened Store
  import opened Handlers
  import opened Footprint
  import SpannerPost

  datatype Phase =
    | Opened
    | Locked(seen: Option<int>)
    | Acted(seen: Option<int>, x: Context, env: Env)

  datatype Session = Session(r: Request, ts: int, phase: Phase)

  /** A committed request with all that went into it, or the end of a DELETE /storage. */
  datatype Entry = Served(r: Request, x: Context, env: Env) | Wiped(u: U64)

  /**
   * `last` is the timestamp of the last commit, `uuids` are the batch ids drawn so far, `wipes` are
   * the requests to DELETE /storage, by user, whose precondition has passed.
   */
  datatype State = State(
    b: Backend, t: Tables, sessions: map<int, Session>, wipes: map<int, U64>,
    last: int, uuids: set<int>, log: seq<Entry>)

  datatype Label =
    | Open(sid: int, r: Request, ts: int)
    | Lock(sid: int, clock: int)
    | Act(sid: int, env: Env)
    | Commit(sid: int)
    | Abort(sid: int)
    | CheckWipe(wid: int, u: U64, precondition: Precondition)
    | Wipe(wid: int, u: U64)

  function KeyFor(b: Backend, r: Request): Key { (StoredUser(b, r.u), r.c) }

  predicate Holding(s: State, sid: int) { sid in s.sessions && !s.sessions[sid].phase.Opened? }

  predicate Free(s: State, k: Key) {
    forall sid | sid in s.sessions && Holding(s, sid) :: KeyFor(s.b, s.sessions[sid].r) != k
  }

  function DoneOf(session: Session): Done<Reply>
    requires session.phase.Acted?
  {
    CheckThenAct(session.phase.x, session.phase.env, session.phase.seen, session.r)
  }

  /** On Spanner every row and every batch has a parent row. */
  ghost predicate AllParented(b: Backend, t: Tables) { forall k :: Parented(b, CollectionAt(t, k)) }

  ghost predicate Init(s: State) {
    && s.sessions == map[] && s.wipes == map[] && s.log == [] && s.last >= 0
    && AllParented(s.b, s.t)
    && (forall k | k in s.t.versions :: s.t.versions[k] <= s.last)
    && (forall k | k in s.t.batches :: s.t.batches[k] == map[])
  }

  predicate Enabled(s: State, l: Label) {
    match l
    case Open(sid, r, ts) => sid !in s.sessions && r.c >= 1 && Safe(s.b, r.u) && ts > 0
    case Lock(sid, clock) =>
      sid in s.sessions && s.sessions[sid].phase.Opened? && Free(s, KeyFor(s.b, s.sessions[sid].r)) && clock > 0
    case Act(sid, env) => sid in s.sessions && s.sessions[sid].phase.Locked? && env.uuid !in s.uuids
    case Commit(sid) => sid in s.sessions && s.sessions[sid].phase.Acted? && DoneOf(s.sessions[sid]).r.Ok?
    case Abort(sid) => sid in s.sessions
    case CheckWipe(wid, u, precondition) => wid !in s.wipes && Safe(s.b, u)
    case Wipe(wid, u) =>
      && wid in s.wipes && s.wipes[wid] == u
      && forall sid | sid in s.sessions && Holding(s, sid) :: KeyFor(s.b, s.sessions[sid].r).0 != StoredUser(s.b, u)
  }

  function Ended(s: State, sid: int): State { s.(sessions := s.sessions - {sid}) }

  /** MySQL's sessions get their timestamp when they are opened, Spanner's with the lock. */
  function LockStep(s: State, sid: int, clock: int): State
    requires sid in s.sessions
  {
    var session := s.sessions[sid];
    var ts := if s.b.Mysql? then session.ts else clock;
    var lock := Handlers.Lock(s.b, Lookup(s.t.versions, KeyFor(s.b, session.r)), ts);
    if lock.Err? then Ended(s, sid)
    else s.(sessions := s.sessions[sid := Session(session.r, ts, Locked(lock.value))])
  }

  function ActStep(s: State, sid: int, env: Env): State
    requires sid in s.sessions && s.sessions[sid].phase.Locked?
  {
    var session := s.sessions[sid];
    var x := ContextOf(s.b, s.t, session.r.u, session.r.c, session.ts);
    s.(sessions := s.sessions[sid := session.(phase := Acted(session.phase.seen, x, env))],
       uuids := s.uuids + {env.uuid})
  }

  function CommitStep(s: State, sid: int): State
    requires sid in s.sessions && s.sessions[sid].phase.Acted?
  {
    var session := s.sessions[sid];
    var committed := CommitTables(s.t, DoneOf(session).p);
    if committed.Err? then Ended(s, sid)
    else
      Ended(s, sid).(t := committed.value, last := session.ts,
                     log := s.log + [Served(session.r, session.phase.x, session.phase.env)])
  }

  /** The precondition of a DELETE /storage is checked before its transaction begins, and without a lock. */
  function CheckWipeStep(s: State, wid: int, u: U64, precondition: Precondition): State {
    var resource := StorageTimestamp(s.b, s.t.versions, StoredUser(s.b, u));
    if Check(precondition, resource) == Success then s.(wipes := s.wipes[wid := u]) else s
  }

  function WipeStep(s: State, wid: int, u: U64): State {
    var p := DeleteStorage(s.b, s.t, u);
    s.(t := View(s.t, p), wipes := s.wipes - {wid}, log := s.log + [Wiped(u)])
  }

  function Step(s: State, l: Label): State
    requires Enabled(s, l)
  {
    match l
    case Open(sid, r, ts) => s.(sessions := s.sessions[sid := Session(r, ts, Opened)])
    case Lock(sid, clock) => LockStep(s, sid, clock)
    case Act(sid, env) => ActStep(s, sid, env)
    case Commit(sid) => CommitStep(s, sid)
    case Abort(sid) => Ended(s, sid)
    case CheckWipe(wid, u, precondition) => CheckWipeStep(s, wid, u, precondition)
    case Wipe(wid, u) => WipeStep(s, wid, u)
  }

  // ----- what every step keeps -----

  /** A session that holds its collection finds it as it was when it got the lock. */
  predicate SessionInv(b: Backend, t: Tables, session: Session) {
    && session.r.c >= 1 && Safe(b, session.r.u) && session.ts > 0
    && (!session.phase.Opened? ==>
          && session.phase.seen == Visible(b, CollectionAt(t, KeyFor(b, session.r)).version)
          && (session.phase.seen.Some? ==> session.phase.seen.value < session.ts))
    && (session.phase.Acted? ==>
          && session.phase.x == Context(b, session.r.u, session.r.c, session.ts,
                                        CollectionAt(t, KeyFor(b, session.r)), session.phase.x.versions)
          && Lookup(session.phase.x.versions, KeyFor(b, session.r)) == session.phase.x.found.version)
  }

  predicate SessionsInv(s: State) {
    && (forall sid | sid in s.sessions :: SessionInv(s.b, s.t, s.sessions[sid]))
    && (forall i, j | i in s.sessions && j in s.sessions && i != j && Holding(s, i) && Holding(s, j) ::
          KeyFor(s.b, s.sessions[i].r) != KeyFor(s.b, s.sessions[j].r))
  }

  ghost predicate Inv(s: State) { SessionsInv(s) && AllParented(s.b, s.t) }

  lemma CheckThenActShape(x: Context, env: Env, seen: Option<int>, r: Request)
    requires Sound(x) && Parented(x.b, x.found)
    ensures var done := CheckThenAct(x, env, seen, r);
      done.r.Ok? ==> done.p == NOTHING || ShapeOf(x, r.action, done.p)
  {
    HandleShape(x, env, r.action);
  }

  lemma ShapeOfIsShape(x: Context, action: Action, p: Pending)
    requires p == NOTHING || ShapeOf(x, action, p)
    ensures Shape(x, p)
  {}

  /** What the session of a commit leaves to the tables has one of the three shapes. */
  lemma CommitShape(s: State, sid: int)
    requires Inv(s) && Enabled(s, Commit(sid))
    ensures var session := s.sessions[sid];
      Sound(session.phase.x) && Shape(session.phase.x, DoneOf(session).p)
  {
    var session := s.sessions[sid];
    assert SessionInv(s.b, s.t, session);
    assert Parented(s.b, CollectionAt(s.t, KeyFor(s.b, session.r)));
    CheckThenActShape(session.phase.x, session.phase.env, session.phase.seen, session.r);
    ShapeOfIsShape(session.phase.x, session.r.action, DoneOf(session).p);
  }

  lemma CommitKeepsOthers(s: State, sid: int, j: Key)
    requires Inv(s) && Enabled(s, Commit(sid)) && j != KeyFor(s.b, s.sessions[sid].r) && j.1 >= 1
    ensures CollectionAt(Step(s, Commit(sid)).t, j) == CollectionAt(s.t, j)
  {
    var session := s.sessions[sid];
    CommitShape(s, sid);
    assert SessionInv(s.b, s.t, session);
    if CommitTables(s.t, DoneOf(session).p).Ok? {
      CommitElsewhere(s.t, session.phase.x, DoneOf(session).p, j);
    }
  }

  lemma SameCollectionSameSession(b: Backend, t: Tables, t': Tables, session: Session)
    requires SessionInv(b, t, session)
    requires session.phase.Opened? || CollectionAt(t', KeyFor(b, session.r)) == CollectionAt(t, KeyFor(b, session.r))
    ensures SessionInv(b, t', session)
  {}

  lemma CommitKeepsSessions(s: State, sid: int)
    requires Inv(s) && Enabled(s, Commit(sid))
    ensures SessionsInv(Step(s, Commit(sid)))
  {
    var s' := Step(s, Commit(sid));
    forall i | i in s'.sessions
      ensures SessionInv(s'.b, s'.t, s'.sessions[i])
    {
      assert SessionInv(s.b, s.t, s.sessions[i]);
      if Holding(s, i) {
        assert Holding(s, sid);
        CommitKeepsOthers(s, sid, KeyFor(s.b, s.sessions[i].r));
      }
      SameCollectionSameSession(s.b, s.t, s'.t, s.sessions[i]);
    }
  }

  lemma WipeAt(b: Backend, t: Tables, u: U64, j: Key)
    ensures var before, after := CollectionAt(t, j), CollectionAt(View(t, DeleteStorage(b, t, u)), j);
      after == if j.0 != StoredUser(b, u) then before
               else Collection(None, map[], if b.Mysql? then before.batches else map[])
  {}

  lemma WipeKeepsSessions(s: State, wid: int, u: U64)
    requires Inv(s) && Enabled(s, Wipe(wid, u))
    ensures SessionsInv(Step(s, Wipe(wid, u)))
  {
    var s' := Step(s, Wipe(wid, u));
    forall i | i in s'.sessions
      ensures SessionInv(s'.b, s'.t, s'.sessions[i])
    {
      assert SessionInv(s.b, s.t, s.sessions[i]);
      if Holding(s, i) { WipeAt(s.b, s.t, u, KeyFor(s.b, s.sessions[i].r)); }
      SameCollectionSameSession(s.b, s.t, s'.t, s.sessions[i]);
    }
  }

  lemma LockKeepsSessions(s: State, l: Label)
    requires Inv(s) && Enabled(s, l) && l.Lock?
    ensures SessionsInv(Step(s, l))
  {}

  lemma ActKeepsSessions(s: State, l: Label)
    requires Inv(s) && Enabled(s, l) && l.Act?
    ensures SessionsInv(Step(s, l))
  {
    assert SessionInv(s.b, s.t, s.sessions[l.sid]);
  }

  lemma StepKeepsSessions(s: State, l: Label)
    requires Inv(s) && Enabled(s, l)
    ensures SessionsInv(Step(s, l))
  {
    match l
    case Open(sid, r, ts) =>
    case Lock(sid, clock) => LockKeepsSessions(s, l);
    case Act(sid, env) => ActKeepsSessions(s, l);
    case Commit(sid) => CommitKeepsSessions(s, sid);
    case Abort(sid) =>
    case CheckWipe(wid, u, precondition) =>
    case Wipe(wid, u) => WipeKeepsSessions(s, wid, u);
  }

  lemma HereParented(x: Context, p: Pending, after: Collection)
    requires Sound(x) && Shape(x, p) && Parented(x.b, x.found)
    requires after.version == VersionAfter(x, p) && after.batches == BatchesAt(x, p)
    requires SpannerPost.ApplyAll(OwnerOf(KeyOf(x)), RowsAt(x, p), MutationsOf(x, p)) == Ok(after.rows)
    ensures Parented(x.b, after)
  {}

  lemma CommitParents(t: Tables, x: Context, p: Pending)
    requires Sound(x) && Shape(x, p) && CommitTables(t, p).Ok? && x.found == CollectionAt(t, KeyOf(x))
    requires AllParented(x.b, t)
    ensures AllParented(x.b, CommitTables(t, p).value)
  {
    var t' := CommitTables(t, p).value;
    forall k
      ensures Parented(x.b, CollectionAt(t', k))
    {
      assert Parented(x.b, CollectionAt(t, k));
      if k == KeyOf(x) {
        CommitHere(t, x, p);
        HereParented(x, p, CollectionAt(t', k));
      } else {
        CommitElsewhere(t, x, p, k);
      }
    }
  }

  lemma StepKeepsParents(s: State, l: Label)
    requires Inv(s) && Enabled(s, l)
    ensures AllParented(s.b, Step(s, l).t)
  {
    if l.Commit? {
      var session := s.sessions[l.sid];
      assert SessionInv(s.b, s.t, session);
      CommitShape(s, l.sid);
      if CommitTables(s.t, DoneOf(session).p).Ok? { CommitParents(s.t, session.phase.x, DoneOf(session).p); }
    } else if l.Wipe? {
      forall k
        ensures Parented(s.b, CollectionAt(Step(s, l).t, k))
      {
        assert Parented(s.b, CollectionAt(s.t, k));
        WipeAt(s.b, s.t, l.u, k);
      }
    }
  }

  lemma StepKeepsInv(s: State, l: Label)
    requires Inv(s) && Enabled(s, l)
    ensures Inv(Step(s, l))
  {
    StepKeepsSessions(s, l);
    StepKeepsParents(s, l);
  }

  // ----- runs -----

  ghost predicate IsRun(run: seq<State>, labels: seq<Label>) {
    && |run| == |labels| + 1
    && Init(run[0])
    && forall i | 0 <= i < |labels| :: Enabled(run[i], labels[i]) && run[i + 1] == Step(run[i], labels[i])
  }

  /**
   * In every state of every run: a write lock is held by one session at most, a session that
   * holds one finds its collection unchanged, below its own timestamp, and Spanner's rows and
   * batches have parents.
   */
  lemma {:induction false} RunKeepsInv(run: seq<State>, labels: seq<Label>, i: nat)
    requires IsRun(run, labels) && i < |run|
    ensures Inv(run[i]) && run[i].b == run[0].b
  {
    if i > 0 {
      RunKeepsInv(run, labels, i - 1);
      StepKeepsInv(run[i - 1], labels[i - 1]);
    }
  }

  lemma Extend(run: seq<State>, labels: seq<Label>, l: Label)
    requires IsRun(run, labels) && Enabled(run[|labels|], l)
    ensures IsRun(run + [Step(run[|labels|], l)], labels + [l])
  {
    var longer, steps := run + [Step(run[|labels|], l)], labels + [l];
    forall i | 0 <= i < |steps| ensures Enabled(longer[i], steps[i]) && longer[i + 1] == Step(longer[i], steps[i]) {
      assert i < |labels| ==> longer[i] == run[i] && steps[i] == labels[i] && longer[i + 1] == run[i + 1];
    }
  }
}
