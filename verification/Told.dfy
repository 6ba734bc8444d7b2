/**
 * What a client is told: whether its precondition holds, of what time the collection or the record
 * is, and which version its own request has left.
 */
module Told {
  import opened Wrappers
  import opened Bso
  import opened Store
  import opened Handlers
  import opened Footprint
  import opened Protocol
  import opened Versions
  import opened Records
  import opened Reads

  // ----- preconditions -----

  /** When the record, or else the collection, was last modified. */
  function TimeOf(s: State, k: Key, bso: Option<string>, clock: int): int {
    if bso.Some? then RecordTime(s, k, bso.value, clock) else ModifiedIn(s, k)
  }

  predicate Meets(precondition: Precondition, time: int) {
    match precondition
    case IfModifiedSince(header) => header < time
    case IfUnmodifiedSince(header) => time <= header
    case Anytime => true
  }

  predicate Refuses(done: Done<Reply>, precondition: Precondition, time: int) {
    && done.p == NOTHING && done.r.Ok?
    && done.r.value.lastModified == Some(time)
    && (precondition.IfModifiedSince? ==> done.r.value.status == NotModified)
    && (precondition.IfUnmodifiedSince? ==> done.r.value.status == PreconditionFailed)
  }

  /** What the session has prepared but for the header. */
  predicate SameWork(done: Done<Reply>, handled: Done<Reply>) {
    && done.p == handled.p
    && (if handled.r.Err? then done.r == handled.r
        else done.r.Ok? && done.r.value == handled.r.value.(lastModified := done.r.value.lastModified))
  }

  /**
   * A session that has acted answers by the time of what it asks for, as it is in every state until
   * it ends: the precondition is refused, and nothing prepared, if and only if it does not hold of it.
   */
  lemma PreconditionDecides(s: State, sid: int)
    requires Inv(s) && sid in s.sessions && s.sessions[sid].phase.Acted?
    ensures var session := s.sessions[sid];
      var done := DoneOf(session);
      var time := TimeOf(s, KeyFor(s.b, session.r), session.r.bso, session.phase.env.checkClock);
      if Meets(session.r.precondition, time)
      then SameWork(done, Handle(session.phase.x, session.phase.env, NOTHING, session.r.action))
           && (done.r.Ok? ==> Passed(done))
      else Refuses(done, session.r.precondition, time) && !Passed(done)
  {
    var session := s.sessions[sid];
    assert SessionInv(s.b, s.t, session);
    assert TouchedKey(session.phase.x) == KeyFor(s.b, session.r);
    HandlePasses(session.phase.x, session.phase.env, session.r.action);
  }

  /**
   * A client that sends the version it has read in state `i` as X-If-Modified-Since gets the answer
   * 304 from a session that commits later, the collection being kept, if and only if nobody has
   * written to it in between.
   */
  lemma NotModifiedExactly(run: seq<State>, labels: seq<Label>, k: Key, i: nat, n: nat)
    requires IsRun(run, labels) && i <= n < |labels| && k.1 >= 1 && Kept(run, k, i, n)
    requires labels[n].Commit? && Enabled(run[n], labels[n])
    requires var r := run[n].sessions[labels[n].sid].r;
      && KeyFor(run[n].b, r) == k && r.bso.None?
      && r.precondition == IfModifiedSince(ModifiedIn(run[i], k))
    ensures DoneOf(run[n].sessions[labels[n].sid]).r.value.status == NotModified
      <==> !WrittenBetween(run, labels, k, i, n)
  {
    RunKeepsInv(run, labels, n);
    PreconditionDecides(run[n], labels[n].sid);
    ModifiedIncreases(run, labels, k, i, n);
  }

  lemma StepModified(s: State, l: Label, k: Key)
    requires Inv(s) && Enabled(s, l) && k.1 >= 1
    requires VersionIn(s, k).Some? ==> VersionIn(Step(s, l), k).Some?
    ensures if Wrote(s, l, k) then ModifiedIn(s, k) < ModifiedIn(Step(s, l), k)
            else ModifiedIn(Step(s, l), k) == ModifiedIn(s, k)
  {
    VersionStep(s, l, k);
  }

  lemma RunStepModified(run: seq<State>, labels: seq<Label>, k: Key, n: nat)
    requires IsRun(run, labels) && n < |labels| && k.1 >= 1
    requires VersionIn(run[n], k).Some? ==> VersionIn(run[n + 1], k).Some?
    ensures if Wrote(run[n], labels[n], k) then ModifiedIn(run[n], k) < ModifiedIn(run[n + 1], k)
            else ModifiedIn(run[n + 1], k) == ModifiedIn(run[n], k)
  {
    RunKeepsInv(run, labels, n);
    StepModified(run[n], labels[n], k);
  }

  /** Times that rise exactly where they are marked rise between two places exactly if there is a mark between them. */
  lemma {:induction false} Rises(times: seq<int>, marks: seq<bool>, i: nat, j: nat)
    requires |times| == |marks| + 1 && i <= j < |times|
    requires forall m | i <= m < j :: if marks[m] then times[m] < times[m + 1] else times[m + 1] == times[m]
    ensures times[i] <= times[j]
    ensures times[i] < times[j] <==> exists m | i <= m < j :: marks[m]
    decreases j
  {
    if i < j {
      Rises(times, marks, i, j - 1);
      if marks[j - 1] { assert times[j - 1] < times[j]; }
    }
  }

  function Times(run: seq<State>, k: Key): (times: seq<int>)
    ensures |times| == |run| && forall m | 0 <= m < |run| :: times[m] == ModifiedIn(run[m], k)
  {
    seq(|run|, m requires 0 <= m < |run| => ModifiedIn(run[m], k))
  }

  function Writes(run: seq<State>, labels: seq<Label>, k: Key): (marks: seq<bool>)
    requires |run| == |labels| + 1
    ensures |marks| == |labels| && forall m | 0 <= m < |labels| :: marks[m] == Wrote(run[m], labels[m], k)
  {
    seq(|labels|, m requires 0 <= m < |labels| => Wrote(run[m], labels[m], k))
  }

  lemma MarkedIsWritten(run: seq<State>, labels: seq<Label>, k: Key, i: nat, j: nat)
    requires |run| == |labels| + 1 && j < |run|
    ensures WrittenBetween(run, labels, k, i, j) <==> exists m | i <= m < j :: Writes(run, labels, k)[m]
  {
    var marks := Writes(run, labels, k);
    if WrittenBetween(run, labels, k, i, j) {
      var m :| i <= m < j && Wrote(run[m], labels[m], k);
      assert marks[m];
    }
    if exists m | i <= m < j :: marks[m] {
      var m :| i <= m < j && marks[m];
      assert Wrote(run[m], labels[m], k);
    }
  }

  lemma TimesRise(run: seq<State>, labels: seq<Label>, k: Key, i: nat, j: nat)
    requires IsRun(run, labels) && i <= j < |run| && k.1 >= 1 && Kept(run, k, i, j)
    ensures var times, marks := Times(run, k), Writes(run, labels, k);
      forall m | i <= m < j :: if marks[m] then times[m] < times[m + 1] else times[m + 1] == times[m]
  {
    forall m | i <= m < j
      ensures if Wrote(run[m], labels[m], k) then ModifiedIn(run[m], k) < ModifiedIn(run[m + 1], k)
              else ModifiedIn(run[m + 1], k) == ModifiedIn(run[m], k)
    {
      RunStepModified(run, labels, k, m);
    }
  }

  /** `VersionsIncrease` for what a client is told, be there a collection or not. */
  lemma ModifiedIncreases(run: seq<State>, labels: seq<Label>, k: Key, i: nat, j: nat)
    requires IsRun(run, labels) && i <= j < |run| && k.1 >= 1 && Kept(run, k, i, j)
    ensures ModifiedIn(run[i], k) <= ModifiedIn(run[j], k)
    ensures ModifiedIn(run[i], k) < ModifiedIn(run[j], k) <==> WrittenBetween(run, labels, k, i, j)
  {
    TimesRise(run, labels, k, i, j);
    Rises(Times(run, k), Writes(run, labels, k), i, j);
    MarkedIsWritten(run, labels, k, i, j);
  }

  // ----- readers -----

  predicate KeptShared(run: seq<Shared>, k: Key, i: nat, j: nat)
    requires j < |run|
  {
    forall m | i <= m < j :: VersionIn(run[m].s, k).Some? ==> VersionIn(run[m + 1].s, k).Some?
  }

  predicate WritesShared(h: Shared, m: Move, k: Key) { m.Write? && Wrote(h.s, m.l, k) }

  predicate WrittenShared(run: seq<Shared>, moves: seq<Move>, k: Key, i: nat, j: nat)
    requires |run| == |moves| + 1 && j < |run|
  {
    exists m | i <= m < j :: WritesShared(run[m], moves[m], k)
  }

  lemma MoveModified(h: Shared, m: Move, k: Key)
    requires Inv(h.s) && Allowed(h, m) && k.1 >= 1
    requires VersionIn(h.s, k).Some? ==> VersionIn(Moved(h, m).s, k).Some?
    ensures if WritesShared(h, m, k) then ModifiedIn(h.s, k) < ModifiedIn(Moved(h, m).s, k)
            else ModifiedIn(Moved(h, m).s, k) == ModifiedIn(h.s, k)
  {
    if m.Write? { StepModified(h.s, m.l, k); }
  }

  lemma RunMoveModified(run: seq<Shared>, moves: seq<Move>, k: Key, n: nat)
    requires IsSharedRun(run, moves) && n < |moves| && k.1 >= 1
    requires VersionIn(run[n].s, k).Some? ==> VersionIn(run[n + 1].s, k).Some?
    ensures if WritesShared(run[n], moves[n], k) then ModifiedIn(run[n].s, k) < ModifiedIn(run[n + 1].s, k)
            else ModifiedIn(run[n + 1].s, k) == ModifiedIn(run[n].s, k)
  {
    RunKeepsShared(run, moves, n);
    MoveModified(run[n], moves[n], k);
  }

  function SharedTimes(run: seq<Shared>, k: Key): (times: seq<int>)
    ensures |times| == |run| && forall m | 0 <= m < |run| :: times[m] == ModifiedIn(run[m].s, k)
  {
    seq(|run|, m requires 0 <= m < |run| => ModifiedIn(run[m].s, k))
  }

  function SharedWrites(run: seq<Shared>, moves: seq<Move>, k: Key): (marks: seq<bool>)
    requires |run| == |moves| + 1
    ensures |marks| == |moves| && forall m | 0 <= m < |moves| :: marks[m] == WritesShared(run[m], moves[m], k)
  {
    seq(|moves|, m requires 0 <= m < |moves| => WritesShared(run[m], moves[m], k))
  }

  lemma SharedMarkedIsWritten(run: seq<Shared>, moves: seq<Move>, k: Key, i: nat, j: nat)
    requires |run| == |moves| + 1 && j < |run|
    ensures WrittenShared(run, moves, k, i, j) <==> exists m | i <= m < j :: SharedWrites(run, moves, k)[m]
  {
    var marks := SharedWrites(run, moves, k);
    if WrittenShared(run, moves, k, i, j) {
      var m :| i <= m < j && WritesShared(run[m], moves[m], k);
      assert marks[m];
    }
    if exists m | i <= m < j :: marks[m] {
      var m :| i <= m < j && marks[m];
      assert WritesShared(run[m], moves[m], k);
    }
  }

  lemma SharedTimesRise(run: seq<Shared>, moves: seq<Move>, k: Key, i: nat, j: nat)
    requires IsSharedRun(run, moves) && i <= j < |run| && k.1 >= 1 && KeptShared(run, k, i, j)
    ensures var times, marks := SharedTimes(run, k), SharedWrites(run, moves, k);
      forall m | i <= m < j :: if marks[m] then times[m] < times[m + 1] else times[m + 1] == times[m]
  {
    forall m | i <= m < j
      ensures if WritesShared(run[m], moves[m], k) then ModifiedIn(run[m].s, k) < ModifiedIn(run[m + 1].s, k)
              else ModifiedIn(run[m + 1].s, k) == ModifiedIn(run[m].s, k)
    {
      RunMoveModified(run, moves, k, m);
    }
  }

  lemma SharedIncreases(run: seq<Shared>, moves: seq<Move>, k: Key, i: nat, j: nat)
    requires IsSharedRun(run, moves) && i <= j < |run| && k.1 >= 1 && KeptShared(run, k, i, j)
    ensures ModifiedIn(run[i].s, k) <= ModifiedIn(run[j].s, k)
    ensures ModifiedIn(run[i].s, k) < ModifiedIn(run[j].s, k) <==> WrittenShared(run, moves, k, i, j)
  {
    SharedTimesRise(run, moves, k, i, j);
    Rises(SharedTimes(run, k), SharedWrites(run, moves, k), i, j);
    SharedMarkedIsWritten(run, moves, k, i, j);
  }

  /**
   * A client asks again for a collection with the version of state `i` as X-If-Modified-Since. Its
   * reader, at work only after that state, sees the collection as it is in some state `j` meanwhile;
   * the collection being kept, it is answered 304 if and only if nobody has written to it between
   * `i` and `j`.
   */
  lemma ReaderNotModifiedExactly(run: seq<Shared>, moves: seq<Move>, i: nat, n: nat, rid: int) returns (j: nat)
    requires IsSharedRun(run, moves) && i <= n < |run| && rid !in run[i].readers && rid in run[n].readers
    requires run[n].readers[rid].modified.Some? && KeptShared(run, run[n].readers[rid].k, i, n)
    ensures i < j <= n && rid in run[j].readers
    ensures var reader := run[n].readers[rid];
      Check(IfModifiedSince(ModifiedIn(run[i].s, reader.k)), reader.modified.value) == NotModified
      <==> !WrittenShared(run, moves, reader.k, i, j)
  {
    j := ReadsOneState(run, moves, n, rid);
    var k := run[n].readers[rid].k;
    RunKeepsShared(run, moves, n);
    assert ReaderInv(run[n], run[n].readers[rid]);
    SharedIncreases(run, moves, k, i, j);
  }

  // ----- locks -----

  /**
   * A session gets its lock, and its timestamp, if and only if the collection's version is missing or
   * below it; otherwise it ends.
   */
  lemma LockIsGranted(s: State, l: Label)
    requires Enabled(s, l) && l.Lock?
    ensures var session, s' := s.sessions[l.sid], Step(s, l);
      var version, ts := VersionIn(s, KeyFor(s.b, session.r)), if s.b.Mysql? then session.ts else l.clock;
      if version.Some? && ts <= version.value then s' == s.(sessions := s.sessions - {l.sid})
      else s' == s.(sessions := s.sessions[l.sid := Session(session.r, ts, Locked(version))])
  {}

  /** A DELETE of the storage goes on to delete if and only if its precondition holds of the latest version. */
  lemma WipeIsGranted(s: State, l: Label)
    requires Enabled(s, l) && l.CheckWipe?
    ensures var user, s' := StoredUser(s.b, l.u), Step(s, l);
      s' == if Meets(l.precondition, StorageTimestamp(s.b, s.t.versions, user)) then s.(wipes := s.wipes[l.wid := l.u])
            else s
  {}

  // ----- the answer to a write -----

  /** The times a handler puts into its answer, which are then those of the request's answer. */
  lemma HandlerTells(x: Context, env: Env, action: Action)
    requires IsWrite(action) || action.PostBatch?
    ensures var done := Handle(x, env, NOTHING, action);
      done.r.Ok? ==>
        && done.r.value.modified == (if IsWrite(action) then Some(x.ts) else None)
        && done.r.value.lastModified == (if IsWrite(action) && !action.DelBso? then Some(x.ts) else None)
  {}

  lemma HeaderIsFilled(x: Context, env: Env, seen: Option<int>, r: Request)
    requires Passed(CheckThenAct(x, env, seen, r))
    ensures var done, handled := CheckThenAct(x, env, seen, r), Handle(x, env, NOTHING, r.action);
      && handled.r.Ok? && done.r.value.modified == handled.r.value.modified
      && done.r.value.lastModified
         == (if handled.r.value.lastModified.Some? then handled.r.value.lastModified
             else Some(ResourceTime(x, env, seen, r.bso)))
  {}

  lemma ResourceIs(s: State, sid: int)
    requires Inv(s) && sid in s.sessions && s.sessions[sid].phase.Acted?
    ensures var session := s.sessions[sid];
      ResourceTime(session.phase.x, session.phase.env, session.phase.seen, session.r.bso)
      == TimeOf(s, KeyFor(s.b, session.r), session.r.bso, session.phase.env.checkClock)
  {
    assert SessionInv(s.b, s.t, s.sessions[sid]);
    assert TouchedKey(s.sessions[sid].phase.x) == KeyFor(s.b, s.sessions[sid].r);
  }

  /** The time in the body of the answer, and in its header if the handler sets it, is the version the write leaves. */
  lemma WriteTellsVersion(s: State, l: Label, k: Key)
    requires Inv(s) && Wrote(s, l, k)
    ensures var session, reply := s.sessions[l.sid], DoneOf(s.sessions[l.sid]).r.value;
      && reply.modified.Some? && reply.modified == VersionIn(Step(s, l), k)
      && reply.lastModified
         == (if session.r.action.DelBso? then Some(TimeOf(s, k, session.r.bso, session.phase.env.checkClock))
             else VersionIn(Step(s, l), k))
  {
    var session := s.sessions[l.sid];
    CommitVersion(s, l, k);
    assert SessionInv(s.b, s.t, session);
    HeaderIsFilled(session.phase.x, session.phase.env, session.phase.seen, session.r);
    HandlerTells(session.phase.x, session.phase.env, session.r.action);
    ResourceIs(s, l.sid);
  }

  /** An upload is told the time of what it asks for, which it leaves as it is, and no other. */
  lemma UploadTellsVersion(s: State, l: Label, k: Key)
    requires Inv(s) && Carried(s, l, k)
    requires s.sessions[l.sid].r.action.PostBatch? && !s.sessions[l.sid].r.action.commit
    ensures var session, reply := s.sessions[l.sid], DoneOf(s.sessions[l.sid]).r.value;
      && reply.modified.None?
      && reply.lastModified == Some(TimeOf(s, k, session.r.bso, session.phase.env.checkClock))
  {
    var session := s.sessions[l.sid];
    assert SessionInv(s.b, s.t, session);
    HeaderIsFilled(session.phase.x, session.phase.env, session.phase.seen, session.r);
    HandlerTells(session.phase.x, session.phase.env, session.r.action);
    ResourceIs(s, l.sid);
  }
}
