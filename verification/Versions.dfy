/**
 * Last-modified times over whole runs: a collection's version only goes up, no update that is
 * conditional on a version is lost, and a user's storage timestamp does not go back.
 */
module Versions {
  import opened Wrappers
  import opened Bso
  import opened Store
  import opened Handlers
  import opened Footprint
  import opened Protocol
  import opened Timestamp

  /** The last-modified time of a collection, if it has one. */
  function VersionIn(s: State, k: Key): Option<int> { Visible(s.b, Lookup(s.t.versions, k)) }

  /** What a client is told of it. */
  function ModifiedIn(s: State, k: Key): int { if VersionIn(s, k).Some? then VersionIn(s, k).value else 0 }

  predicate IsWrite(action: Action) {
    action.Put? || action.Post? || (action.PostBatch? && action.commit) || action.DelBso? || action.DelBsos?
  }

  predicate Passed(done: Done<Reply>) { done.r.Ok? && (done.r.value.status.Success? || done.r.value.status.Accepted?) }

  /** The step commits a session of collection `k` whose request was carried out. */
  predicate Carried(s: State, l: Label, k: Key) {
    && l.Commit? && Enabled(s, l)
    && KeyFor(s.b, s.sessions[l.sid].r) == k
    && Passed(DoneOf(s.sessions[l.sid]))
    && CommitTables(s.t, DoneOf(s.sessions[l.sid]).p).Ok?
  }

  /** .. and was to write to it. */
  predicate Wrote(s: State, l: Label, k: Key) { Carried(s, l, k) && IsWrite(s.sessions[l.sid].r.action) }

  /** A precondition that fails leaves nothing to commit. */
  lemma NotPassed(x: Context, env: Env, seen: Option<int>, r: Request)
    requires CheckThenAct(x, env, seen, r).r.Ok? && !Passed(CheckThenAct(x, env, seen, r))
    ensures CheckThenAct(x, env, seen, r).p == NOTHING
  {}

  lemma CommitNothing(t: Tables)
    ensures CommitTables(t, NOTHING) == Ok(t)
  {
    assert Overlay(t.versions, map[]) == t.versions;
    assert t.bsos + map[] == t.bsos && t.batches + map[] == t.batches;
  }

  /** The shape of what a carried out request leaves, by its action. */
  lemma CarriedShape(s: State, l: Label, k: Key)
    requires Inv(s) && Carried(s, l, k)
    ensures var session := s.sessions[l.sid];
      && SessionInv(s.b, s.t, session) && Sound(session.phase.x)
      && (DoneOf(session).p == NOTHING || ShapeOf(session.phase.x, session.r.action, DoneOf(session).p))
      && (IsWrite(session.r.action) ==> Touched(session.phase.x, DoneOf(session).p))
  {
    var session := s.sessions[l.sid];
    assert SessionInv(s.b, s.t, session);
    assert Parented(s.b, CollectionAt(s.t, k));
    HandleShape(session.phase.x, session.phase.env, session.r.action);
  }

  predicate RaisedTo(v: Option<int>, v': Option<int>, ts: int) {
    v' == Some(ts) && ts > 0 && (v.Some? ==> v.value < ts)
  }

  lemma QuietVersion(x: Context, p: Pending)
    requires Sound(x) && Shape(x, p) && !Touched(x, p)
    ensures var v, v' := Visible(x.b, x.found.version), Visible(x.b, VersionAfter(x, p));
      v' == v || v'.None?
  {}

  lemma NotAWrite(x: Context, action: Action, p: Pending)
    requires Sound(x) && x.ts > 0 && ShapeOf(x, action, p) && !IsWrite(action)
    ensures Shape(x, p) && !Touched(x, p)
  {
    assert KeyOf(x) !in p.versions || p.versions[KeyOf(x)] != Some(x.ts);
    assert KeyOf(x) in map[KeyOf(x) := Some(x.ts)];
  }

  lemma CommittedVersion(s: State, l: Label, k: Key)
    requires Inv(s) && Enabled(s, l) && l.Commit? && KeyFor(s.b, s.sessions[l.sid].r) == k
    requires CommitTables(s.t, DoneOf(s.sessions[l.sid]).p).Ok?
    ensures VersionIn(Step(s, l), k)
         == Visible(s.b, VersionAfter(s.sessions[l.sid].phase.x, DoneOf(s.sessions[l.sid]).p))
    ensures !Carried(s, l, k) ==> DoneOf(s.sessions[l.sid]).p == NOTHING
  {
    var session := s.sessions[l.sid];
    assert SessionInv(s.b, s.t, session);
    CommitShape(s, l.sid);
    CommitHere(s.t, session.phase.x, DoneOf(session).p);
    if !Passed(DoneOf(session)) {
      NotPassed(session.phase.x, session.phase.env, session.phase.seen, session.r);
    }
  }

  lemma CommitVersion(s: State, l: Label, k: Key)
    requires Inv(s) && Enabled(s, l) && l.Commit? && KeyFor(s.b, s.sessions[l.sid].r) == k
    requires CommitTables(s.t, DoneOf(s.sessions[l.sid]).p).Ok?
    ensures var v, v' := VersionIn(s, k), VersionIn(Step(s, l), k);
      if Wrote(s, l, k) then RaisedTo(v, v', s.sessions[l.sid].ts) else v' == v || v'.None?
  {
    var session := s.sessions[l.sid];
    CommittedVersion(s, l, k);
    assert SessionInv(s.b, s.t, session);
    if Carried(s, l, k) {
      CarriedShape(s, l, k);
      if !Wrote(s, l, k) {
        if DoneOf(session).p != NOTHING { NotAWrite(session.phase.x, session.r.action, DoneOf(session).p); }
        QuietVersion(session.phase.x, DoneOf(session).p);
      }
    }
  }

  lemma CommitKeepsVersion(s: State, l: Label, k: Key)
    requires Inv(s) && Enabled(s, l) && l.Commit? && k.1 >= 1
    requires KeyFor(s.b, s.sessions[l.sid].r) != k || CommitTables(s.t, DoneOf(s.sessions[l.sid]).p).Err?
    ensures VersionIn(Step(s, l), k) == VersionIn(s, k) && !Wrote(s, l, k)
  {
    if KeyFor(s.b, s.sessions[l.sid].r) != k { CommitKeepsOthers(s, l.sid, k); }
    assert CollectionAt(Step(s, l).t, k) == CollectionAt(s.t, k);
  }

  /**
   * One step and one collection: it stays, or a write raises its version to the session's timestamp,
   * or it is removed.
   */
  lemma VersionStep(s: State, l: Label, k: Key)
    requires Inv(s) && Enabled(s, l) && k.1 >= 1
    ensures var v, v' := VersionIn(s, k), VersionIn(Step(s, l), k);
      if Wrote(s, l, k) then RaisedTo(v, v', s.sessions[l.sid].ts) else v' == v || v'.None?
  {
    if l.Commit? {
      if KeyFor(s.b, s.sessions[l.sid].r) == k && CommitTables(s.t, DoneOf(s.sessions[l.sid]).p).Ok? {
        CommitVersion(s, l, k);
      } else {
        CommitKeepsVersion(s, l, k);
      }
    } else if l.Wipe? {
      WipeAt(s.b, s.t, l.u, k);
    }
  }

  /** Between the two states the collection is never removed. */
  predicate Kept(run: seq<State>, k: Key, i: nat, j: nat)
    requires j < |run|
  {
    forall m | i <= m < j :: VersionIn(run[m], k).Some? ==> VersionIn(run[m + 1], k).Some?
  }

  predicate WrittenBetween(run: seq<State>, labels: seq<Label>, k: Key, i: nat, j: nat)
    requires |run| == |labels| + 1 && j < |run|
  {
    exists m | i <= m < j :: Wrote(run[m], labels[m], k)
  }

  lemma WrittenUpTo(run: seq<State>, labels: seq<Label>, k: Key, i: nat, n: nat)
    requires |run| == |labels| + 1 && i <= n < |labels|
    ensures WrittenBetween(run, labels, k, i, n + 1)
      <==> WrittenBetween(run, labels, k, i, n) || Wrote(run[n], labels[n], k)
  {}

  /**
   * Over any run, as long as a collection is not removed its version never decreases, and it is
   * higher at the end exactly if it was written to in between.
   */
  lemma {:induction false} VersionsIncrease(run: seq<State>, labels: seq<Label>, k: Key, i: nat, j: nat)
    requires IsRun(run, labels) && i <= j < |run| && k.1 >= 1
    requires Kept(run, k, i, j) && VersionIn(run[i], k).Some?
    ensures VersionIn(run[j], k).Some? && VersionIn(run[i], k).value <= VersionIn(run[j], k).value
    ensures VersionIn(run[i], k).value < VersionIn(run[j], k).value <==> WrittenBetween(run, labels, k, i, j)
    decreases j
  {
    if i < j {
      var n := j - 1;
      VersionsIncrease(run, labels, k, i, n);
      RunKeepsInv(run, labels, n);
      VersionStep(run[n], labels[n], k);
      WrittenUpTo(run, labels, k, i, n);
    }
  }

  // ----- no lost conditional update -----

  /**
   * The session of the step asked for its request to be carried out only if the collection is not
   * newer than `header`.
   */
  predicate Guarded(s: State, l: Label, k: Key, header: int) {
    && l.Commit? && Enabled(s, l)
    && KeyFor(s.b, s.sessions[l.sid].r) == k
    && s.sessions[l.sid].r.bso.None? && s.sessions[l.sid].r.precondition == IfUnmodifiedSince(header)
  }

  /** What was checked when the session acted still holds when it commits. */
  lemma CheckHoldsAtCommit(s: State, l: Label, k: Key, header: int)
    requires Inv(s) && Guarded(s, l, k, header)
    ensures var done := DoneOf(s.sessions[l.sid]);
      if ModifiedIn(s, k) > header
      then done.p == NOTHING && done.r.value.status == PreconditionFailed && Step(s, l).t == s.t
      else Passed(done)
  {
    var session := s.sessions[l.sid];
    assert SessionInv(s.b, s.t, session);
    assert TouchedKey(session.phase.x) == k;
    CommitNothing(s.t);
    HandlePasses(session.phase.x, session.phase.env, session.r.action);
  }

  lemma HandlePasses(x: Context, env: Env, action: Action)
    ensures var done := Handle(x, env, NOTHING, action); done.r.Ok? ==> Passed(done)
  {}

  /** A version that was written after a state is above what a client could read there. */
  lemma WrittenIsNewer(run: seq<State>, labels: seq<Label>, k: Key, i: nat, m: nat, n: nat)
    requires IsRun(run, labels) && i <= m < n < |run| && k.1 >= 1
    requires Kept(run, k, i, n) && Wrote(run[m], labels[m], k)
    ensures ModifiedIn(run[i], k) < ModifiedIn(run[n], k)
  {
    RunKeepsInv(run, labels, m);
    VersionStep(run[m], labels[m], k);
    VersionsIncrease(run, labels, k, m + 1, n);
    if VersionIn(run[i], k).Some? {
      VersionsIncrease(run, labels, k, i, m);
    }
  }

  /**
   * A client that has read a collection in state `i`, and whose request is conditional on what it
   * read (or on less, if parsing the header rounded it down), is refused with 412 once somebody
   * else has written to the collection, however the steps of all requests interleave, as long as
   * the collection is not removed meanwhile.
   */
  lemma NoLostUpdate(run: seq<State>, labels: seq<Label>, k: Key, i: nat, m: nat, n: nat, header: int)
    requires IsRun(run, labels) && i <= m < n < |labels| && k.1 >= 1
    requires Kept(run, k, i, n) && header <= ModifiedIn(run[i], k)
    requires Wrote(run[m], labels[m], k) && Guarded(run[n], labels[n], k, header)
    ensures var done := DoneOf(run[n].sessions[labels[n].sid]);
      done.p == NOTHING && done.r.value.status == PreconditionFailed && run[n + 1].t == run[n].t
  {
    WrittenIsNewer(run, labels, k, i, m, n);
    RunKeepsInv(run, labels, n);
    CheckHoldsAtCommit(run[n], labels[n], k, header);
  }

  /** Of two requests conditional on what their clients read in the same state at most one writes. */
  lemma AtMostOneWrites(run: seq<State>, labels: seq<Label>, k: Key, i: nat, m: nat, n: nat, header: int, header': int)
    requires IsRun(run, labels) && i <= m < n < |labels| && k.1 >= 1
    requires Kept(run, k, i, n) && header <= ModifiedIn(run[i], k) && header' <= ModifiedIn(run[i], k)
    requires Guarded(run[m], labels[m], k, header) && Guarded(run[n], labels[n], k, header')
    ensures !(Wrote(run[m], labels[m], k) && Wrote(run[n], labels[n], k))
  {
    if Wrote(run[m], labels[m], k) {
      NoLostUpdate(run, labels, k, i, m, n, header');
    }
  }

  /**
   * A client whose version has been overtaken by a write still gets to write exactly if the
   * collection is by then not newer than its header, for which it must have been removed in between.
   */
  lemma SecondWritesExactly(run: seq<State>, labels: seq<Label>, k: Key, i: nat, m: nat, n: nat, header: int)
    requires IsRun(run, labels) && i <= m < n < |labels| && k.1 >= 1
    requires header <= ModifiedIn(run[i], k)
    requires Wrote(run[m], labels[m], k) && Guarded(run[n], labels[n], k, header)
    requires IsWrite(run[n].sessions[labels[n].sid].r.action)
    requires CommitTables(run[n].t, DoneOf(run[n].sessions[labels[n].sid]).p).Ok?
    ensures Wrote(run[n], labels[n], k) <==> ModifiedIn(run[n], k) <= header
    ensures Wrote(run[n], labels[n], k) ==> !Kept(run, k, i, n)
  {
    RunKeepsInv(run, labels, n);
    CheckHoldsAtCommit(run[n], labels[n], k, header);
    if Kept(run, k, i, n) { NoLostUpdate(run, labels, k, i, m, n, header); }
  }

  // ----- timestamps are ticks -----

  /** Timestamps are rounded down to ten milliseconds when they are made. */
  predicate TickLabel(l: Label) {
    match l
    case Open(_, _, ts) => ts % 10 == 0
    case Lock(_, clock) => clock % 10 == 0
    case _ => true
  }

  predicate AllTicks(labels: seq<Label>) { forall i | 0 <= i < |labels| :: TickLabel(labels[i]) }

  predicate IsTick(version: Option<int>) { version.Some? ==> version.value >= 0 && version.value % 10 == 0 }

  predicate SessionTicks(s: State) { forall sid | sid in s.sessions :: s.sessions[sid].ts % 10 == 0 }

  lemma StepKeepsTicks(s: State, l: Label, k: Key)
    requires Inv(s) && Enabled(s, l) && TickLabel(l) && k.1 >= 1
    requires SessionTicks(s) && IsTick(VersionIn(s, k))
    ensures SessionTicks(Step(s, l)) && IsTick(VersionIn(Step(s, l), k))
  {
    VersionStep(s, l, k);
  }

  /** A collection's version is a tick in every state. */
  lemma {:induction false} RunKeepsTicks(run: seq<State>, labels: seq<Label>, i: nat, k: Key)
    requires IsRun(run, labels) && AllTicks(labels) && i < |run| && k.1 >= 1 && IsTick(VersionIn(run[0], k))
    ensures SessionTicks(run[i]) && IsTick(VersionIn(run[i], k))
  {
    if i > 0 {
      RunKeepsTicks(run, labels, i - 1, k);
      RunKeepsInv(run, labels, i - 1);
      StepKeepsTicks(run[i - 1], labels[i - 1], k);
    }
  }

  /**
   * Two clients read a collection in the same state and both send back what they read as
   * X-If-Unmodified-Since: however the headers come out of the parsing, at most one of them writes.
   */
  lemma TwoClients(run: seq<State>, labels: seq<Label>, k: Key, i: nat, m: nat, n: nat, error: real, error': real)
    requires IsRun(run, labels) && AllTicks(labels) && IsTick(VersionIn(run[0], k))
    requires i <= m < n < |labels| && k.1 >= 1 && Kept(run, k, i, n)
    requires -10.0 < error < 10.0 && ModifiedIn(run[i], k) as real + error >= 0.0
    requires -10.0 < error' < 10.0 && ModifiedIn(run[i], k) as real + error' >= 0.0
    requires Guarded(run[m], labels[m], k, FromHeader(ModifiedIn(run[i], k) as real + error))
    requires Guarded(run[n], labels[n], k, FromHeader(ModifiedIn(run[i], k) as real + error'))
    ensures !(Wrote(run[m], labels[m], k) && Wrote(run[n], labels[n], k))
  {
    RunKeepsTicks(run, labels, i, k);
    var modified := ModifiedIn(run[i], k);
    HeaderReadsTickOrBelow(modified, error);
    HeaderReadsTickOrBelow(modified, error');
    AtMostOneWrites(run, labels, k, i, m, n, FromHeader(modified as real + error),
                    FromHeader(modified as real + error'));
  }
}
