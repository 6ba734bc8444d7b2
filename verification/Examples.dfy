/** Runs in which the guarantees of the other modules end where their conditions do. */
module Examples {
  import opened Wrappers
  import opened Bso
  import opened Store
  import opened Handlers
  import opened Footprint
  import opened Protocol
  import opened Versions
  import opened StorageTime
  import opened BatchRuns
  import opened BatchOnce
  import BatchLife
  import BatchString

  // ----- runs of requests one after the other -----

  /** The run goes on from another one. */
  predicate Continues(run: seq<State>, labels: seq<Label>, run': seq<State>, labels': seq<Label>) {
    run <= run' && labels <= labels' && |run'| == |labels'| + 1 && |run| == |labels| + 1
  }

  lemma Keeps(run: seq<State>, labels: seq<Label>, run': seq<State>, labels': seq<Label>, i: nat)
    requires Continues(run, labels, run', labels') && i < |labels|
    ensures run'[i] == run[i] && labels'[i] == labels[i]
  {}

  /** Nobody else is at work, and the request served alone succeeds. */
  predicate Serves(s: State, r: Request, ts: int, env: Env) {
    && s.sessions == map[] && r.c >= 1 && Safe(s.b, r.u) && ts > 0 && env.uuid !in s.uuids
    && Handlers.Served(s.b, s.t, ts, env, false, r).1.Ok?
  }

  /** What the request leaves. */
  function AfterServing(s: State, r: Request, ts: int, env: Env): State {
    s.(t := Handlers.Served(s.b, s.t, ts, env, false, r).0, last := ts, uuids := s.uuids + {env.uuid},
       log := s.log + [Entry.Served(r, ContextOf(s.b, s.t, r.u, r.c, ts), env)])
  }

  function Opened1(s: State, r: Request, ts: int): State { s.(sessions := map[0 := Session(r, ts, Opened)]) }

  function Locked2(s: State, r: Request, ts: int): State {
    var seen := Visible(s.b, Lookup(s.t.versions, KeyFor(s.b, r)));
    s.(sessions := map[0 := Session(r, ts, Locked(seen))])
  }

  function Acted3(s: State, r: Request, ts: int, env: Env): State {
    s.(sessions := map[0 := SessionOf(s, r, ts, env)], uuids := s.uuids + {env.uuid})
  }

  lemma FirstSteps(s: State, r: Request, ts: int, env: Env)
    requires Serves(s, r, ts, env)
    ensures Enabled(s, Open(0, r, ts)) && Step(s, Open(0, r, ts)) == Opened1(s, r, ts)
    ensures Enabled(Opened1(s, r, ts), Lock(0, ts)) && Step(Opened1(s, r, ts), Lock(0, ts)) == Locked2(s, r, ts)
  {}

  lemma LastSteps(s: State, r: Request, ts: int, env: Env)
    requires Serves(s, r, ts, env)
    ensures Enabled(Locked2(s, r, ts), Act(0, env)) && Step(Locked2(s, r, ts), Act(0, env)) == Acted3(s, r, ts, env)
    ensures Enabled(Acted3(s, r, ts, env), Commit(0))
    ensures Step(Acted3(s, r, ts, env), Commit(0)) == AfterServing(s, r, ts, env)
  {
    assert Locked2(s, r, ts).sessions[0 := SessionOf(s, r, ts, env)] == Acted3(s, r, ts, env).sessions;
    assert Acted3(s, r, ts, env).sessions - {0} == map[];
  }

  /** Such a request takes four steps: a session, the lock, the action, the commit. */
  lemma Serve(run: seq<State>, labels: seq<Label>, r: Request, ts: int, env: Env)
      returns (run': seq<State>, labels': seq<Label>)
    requires IsRun(run, labels) && Serves(run[|labels|], r, ts, env)
    ensures IsRun(run', labels') && Continues(run, labels, run', labels') && |labels'| == |labels| + 4
    ensures labels' == labels + [Open(0, r, ts), Lock(0, ts), Act(0, env), Commit(0)]
    ensures run'[|labels'|] == AfterServing(run[|labels|], r, ts, env)
    ensures run'[|labels| + 3] == Acted3(run[|labels|], r, ts, env)
  {
    var s := run[|labels|];
    FirstSteps(s, r, ts, env);
    LastSteps(s, r, ts, env);
    Extend(run, labels, Open(0, r, ts));
    run', labels' := run + [Opened1(s, r, ts)], labels + [Open(0, r, ts)];
    Extend(run', labels', Lock(0, ts));
    run', labels' := run' + [Locked2(s, r, ts)], labels' + [Lock(0, ts)];
    Extend(run', labels', Act(0, env));
    run', labels' := run' + [Acted3(s, r, ts, env)], labels' + [Act(0, env)];
    Extend(run', labels', Commit(0));
    run', labels' := run' + [AfterServing(s, r, ts, env)], labels' + [Commit(0)];
  }

  function SessionOf(s: State, r: Request, ts: int, env: Env): Session {
    var x := ContextOf(s.b, s.t, r.u, r.c, ts);
    Session(r, ts, Acted(Visible(s.b, x.found.version), x, env))
  }

  function Alone(b: Backend, t: Tables, last: int): State { State(b, t, map[], map[], last, {}, []) }

  // ----- requests that succeed on MySQL -----

  lemma PutSucceeds(s: State, r: Request, ts: int, uuid: int)
    requires s.b.Mysql? && r.action.Put? && r.bso.None? && r.precondition.IfUnmodifiedSince? && Safe(s.b, r.u)
    requires ModifiedIn(s, KeyFor(s.b, r)) <= r.precondition.header
    requires VersionIn(s, KeyFor(s.b, r)).Some? ==> VersionIn(s, KeyFor(s.b, r)).value < ts
    ensures var x := ContextOf(s.b, s.t, r.u, r.c, ts);
      var done := CheckThenAct(x, Calm(uuid), Visible(s.b, x.found.version), r);
      && done.r.Ok? && done.r.value.status == Success && done.p == PutOne(x, NOTHING, r.action.item)
      && CommitTables(s.t, done.p).Ok?
      && Handlers.Served(s.b, s.t, ts, Calm(uuid), false, r) == (CommitTables(s.t, done.p).value, done.r)
  {}

  lemma DeleteSucceeds(s: State, r: Request, ts: int, uuid: int)
    requires s.b.Mysql? && r.action.DelCollection? && r.bso.None? && r.precondition.Anytime? && Safe(s.b, r.u)
    requires VersionIn(s, KeyFor(s.b, r)).Some? && VersionIn(s, KeyFor(s.b, r)).value < ts
    ensures var x := ContextOf(s.b, s.t, r.u, r.c, ts);
      var done := CheckThenAct(x, Calm(uuid), Visible(s.b, x.found.version), r);
      && Exists(x, NOTHING)
      && done.r.Ok? && done.r.value.status == Success && done.p == DeleteCollection(x, NOTHING)
      && CommitTables(s.t, done.p).Ok?
      && Handlers.Served(s.b, s.t, ts, Calm(uuid), false, r) == (CommitTables(s.t, done.p).value, done.r)
  {}

  lemma PutLeaves(s: State, r: Request, ts: int, item: Item, k: Key)
    requires s.b.Mysql? && Safe(s.b, r.u)
    ensures var x := ContextOf(s.b, s.t, r.u, r.c, ts);
      var t' := View(s.t, PutOne(x, NOTHING, item));
      CommitTables(s.t, PutOne(x, NOTHING, item)) == Ok(t')
      && Lookup(t'.versions, k) == if k == KeyOf(x) then Some(ts) else Lookup(s.t.versions, k)
  {
    var x := ContextOf(s.b, s.t, r.u, r.c, ts);
    TouchesTheLockedRow(x);
    CommitWithoutMutations(s.t, PutOne(x, NOTHING, item));
    OverlayAt(s.t.versions, PutOne(x, NOTHING, item).versions, k);
  }

  // ----- a conditional write across a removal -----

  const ITEM: Item := Item("a", None, Some("payload"), None)

  const WRITE: Request := Request(7, 1, None, IfUnmodifiedSince(50), Put(ITEM))

  function Removal(u: U64, c: int): Request { Request(u, c, None, Anytime, DelCollection) }

  /** A write is served, and the step that commits it is one that wrote under the condition. */
  lemma ServeWrite(run: seq<State>, labels: seq<Label>, ts: int, uuid: int)
      returns (run': seq<State>, labels': seq<Label>)
    requires IsRun(run, labels)
    requires var s := run[|labels|];
      && s.b.Mysql? && s.sessions == map[] && uuid !in s.uuids && ts > 0
      && ModifiedIn(s, (7, 1)) <= 50 && (VersionIn(s, (7, 1)).Some? ==> VersionIn(s, (7, 1)).value < ts)
    ensures IsRun(run', labels') && Continues(run, labels, run', labels') && |labels'| == |labels| + 4
    ensures Wrote(run'[|labels| + 3], labels'[|labels| + 3], (7, 1))
    ensures Guarded(run'[|labels| + 3], labels'[|labels| + 3], (7, 1), 50)
    ensures Settled(run[|labels|], run'[|labels'|], uuid) && run'[|labels'|].wipes == run[|labels|].wipes
    ensures VersionIn(run'[|labels'|], (7, 1)) == Some(ts)
  {
    var s := run[|labels|];
    PutSucceeds(s, WRITE, ts, uuid);
    run', labels' := Serve(run, labels, WRITE, ts, Calm(uuid));
    PutLeaves(s, WRITE, ts, ITEM, (7, 1));
    var n := |labels| + 3;
    assert Enabled(run'[n], labels'[n]);
  }

  function RemovedVersion(s: State, u: U64, c: int, ts: int, k: Key): Option<int> {
    if k == (u, c) then None else if k == (AsI32(u), TOMBSTONE) then Some(ts) else VersionIn(s, k)
  }

  ghost predicate RemovalOf(s: State, s': State, u: U64, c: int, ts: int) {
    forall k :: VersionIn(s', k) == RemovedVersion(s, u, c, ts, k)
  }

  lemma RemovalTables(s: State, u: U64, c: int, ts: int, uuid: int)
    requires s.b.Mysql? && c >= 1 && Safe(Mysql, u)
    requires VersionIn(s, (u, c)).Some? && VersionIn(s, (u, c)).value < ts
    ensures var x := ContextOf(s.b, s.t, u, c, ts);
      Exists(x, NOTHING) && AfterServing(s, Removal(u, c), ts, Calm(uuid)).t == View(s.t, DeleteCollection(x, NOTHING))
  {
    DeleteSucceeds(s, Removal(u, c), ts, uuid);
    CommitWithoutMutations(s.t, DeleteCollection(ContextOf(s.b, s.t, u, c, ts), NOTHING));
  }

  lemma RemovalVersion(s: State, s': State, u: U64, c: int, ts: int, k: Key)
    requires s.b.Mysql? && c >= 1 && Safe(Mysql, u) && s'.b == s.b
    requires var x := ContextOf(s.b, s.t, u, c, ts);
      Exists(x, NOTHING) && s'.t == View(s.t, DeleteCollection(x, NOTHING))
    ensures VersionIn(s', k) == RemovedVersion(s, u, c, ts, k)
  {}

  lemma RemovalVersions(s: State, u: U64, c: int, ts: int, uuid: int)
    requires s.b.Mysql? && c >= 1 && Safe(Mysql, u)
    requires VersionIn(s, (u, c)).Some? && VersionIn(s, (u, c)).value < ts
    ensures RemovalOf(s, AfterServing(s, Removal(u, c), ts, Calm(uuid)), u, c, ts)
  {
    RemovalTables(s, u, c, ts, uuid);
    forall k
      ensures VersionIn(AfterServing(s, Removal(u, c), ts, Calm(uuid)), k) == RemovedVersion(s, u, c, ts, k)
    {
      RemovalVersion(s, AfterServing(s, Removal(u, c), ts, Calm(uuid)), u, c, ts, k);
    }
  }

  lemma StaysInOrder(run: seq<State>, labels: seq<Label>, n: nat, ts: int)
    requires |labels| == n + 4 && |run| == n + 5 && labels[n + 3] == Commit(0)
    requires !labels[n].Commit? && !labels[n + 1].Commit? && !labels[n + 2].Commit?
    requires 0 in run[n + 3].sessions && run[n + 3].sessions[0].ts == ts
    ensures Orderly(run[..n + 1], labels[..n]) && run[n + 3].last <= ts ==> Orderly(run, labels)
  {
    if Orderly(run[..n + 1], labels[..n]) && run[n + 3].last <= ts {
      forall i | 0 <= i < |labels|
        ensures CommitsInOrder(run[i], labels[i])
      {
        if i < n { assert CommitsInOrder(run[..n + 1][i], labels[..n][i]); }
      }
    }
  }

  /** Nobody is at work, and one more id has been drawn. */
  predicate Settled(s: State, s': State, uuid: int) {
    s'.b == s.b && s'.sessions == map[] && s'.uuids == s.uuids + {uuid}
  }

  lemma RemovalDeletes(s: State, s': State, u: U64, c: int, ts: int, uuid: int)
    requires s.b.Mysql? && c >= 1 && Safe(Mysql, u)
    requires VersionIn(s, (u, c)).Some? && VersionIn(s, (u, c)).value < ts
    requires s' == Acted3(s, Removal(u, c), ts, Calm(uuid))
    ensures Deletes(s', Commit(0), (u, c))
  {
    DeleteSucceeds(s, Removal(u, c), ts, uuid);
    assert Enabled(s', Commit(0));
  }

  lemma ServeRemoval(run: seq<State>, labels: seq<Label>, u: U64, c: int, ts: int, uuid: int)
      returns (run': seq<State>, labels': seq<Label>)
    requires IsRun(run, labels) && c >= 1 && Safe(Mysql, u)
    requires var s := run[|labels|];
      && s.b.Mysql? && s.sessions == map[] && uuid !in s.uuids && ts > 0
      && VersionIn(s, (u, c)).Some? && VersionIn(s, (u, c)).value < ts
    ensures IsRun(run', labels') && Continues(run, labels, run', labels') && |labels'| == |labels| + 4
    ensures Deletes(run'[|labels| + 3], labels'[|labels| + 3], (u, c))
    ensures run'[|labels| + 3].t == run[|labels|].t && run'[|labels| + 3].b == run[|labels|].b
    ensures labels'[|labels| + 3] == Commit(0) && run'[|labels| + 3].sessions[0].ts == ts
    ensures Settled(run[|labels|], run'[|labels'|], uuid) && RemovalOf(run[|labels|], run'[|labels'|], u, c, ts)
    ensures Orderly(run, labels) && run[|labels|].last <= ts ==> Orderly(run', labels')
  {
    DeleteSucceeds(run[|labels|], Removal(u, c), ts, uuid);
    RemovalVersions(run[|labels|], u, c, ts, uuid);
    run', labels' := Serve(run, labels, Removal(u, c), ts, Calm(uuid));
    RemovalDeletes(run[|labels|], run'[|labels| + 3], u, c, ts, uuid);
    assert run'[..|labels| + 1] == run && labels'[..|labels|] == labels;
    StaysInOrder(run', labels', |labels|, ts);
  }

  lemma Begin(s: State)
    requires Init(s)
    ensures IsRun([s], [])
  {}

  /** The step commits a write under the condition that version 50 is still there. */
  predicate WritesUnder50(s: State, l: Label) { Wrote(s, l, (7, 1)) && Guarded(s, l, (7, 1), 50) }

  lemma FirstWrite() returns (run: seq<State>, labels: seq<Label>)
    ensures IsRun(run, labels) && |labels| == 4 && VersionIn(run[0], (7, 1)) == Some(50)
    ensures WritesUnder50(run[3], labels[3])
    ensures run[4].b.Mysql? && run[4].sessions == map[] && run[4].uuids == {1} && VersionIn(run[4], (7, 1)) == Some(60)
  {
    var s := Alone(Mysql, Tables(map[(7, 1) := 50], map[], map[]), 50);
    Begin(s);
    run, labels := ServeWrite([s], [], 60, 1);
  }

  lemma WriteThenRemove() returns (run: seq<State>, labels: seq<Label>)
    ensures IsRun(run, labels) && |labels| == 8 && VersionIn(run[0], (7, 1)) == Some(50)
    ensures WritesUnder50(run[3], labels[3])
    ensures run[8].b.Mysql? && run[8].sessions == map[] && 3 !in run[8].uuids && VersionIn(run[8], (7, 1)).None?
  {
    var run1, labels1 := FirstWrite();
    run, labels := ServeRemoval(run1, labels1, 7, 1, 70, 2);
    WriteIsRemoved(run1[4], run[8]);
    Keeps(run1, labels1, run, labels, 3);
    Keeps(run1, labels1, run, labels, 0);
  }

  lemma WriteIsRemoved(s: State, s': State)
    requires s.b.Mysql? && s.uuids == {1} && Settled(s, s', 2) && RemovalOf(s, s', 7, 1, 70)
    ensures s'.b.Mysql? && s'.sessions == map[] && 3 !in s'.uuids && VersionIn(s', (7, 1)).None?
  {
    assert VersionIn(s', (7, 1)) == RemovedVersion(s, 7, 1, 70, (7, 1));
  }

  /** Two clients have read version 50. One writes, the collection is deleted, the other writes: both succeed. */
  lemma BothWriteAcrossRemoval() returns (run: seq<State>, labels: seq<Label>)
    ensures IsRun(run, labels) && |labels| == 12 && VersionIn(run[0], (7, 1)) == Some(50)
    ensures WritesUnder50(run[3], labels[3]) && WritesUnder50(run[11], labels[11])
  {
    var run1, labels1 := WriteThenRemove();
    run, labels := ServeWrite(run1, labels1, 80, 3);
    Keeps(run1, labels1, run, labels, 3);
    Keeps(run1, labels1, run, labels, 0);
  }

  // ----- a DELETE of the storage between its check and its transaction -----

  lemma Checked() returns (run: seq<State>, labels: seq<Label>)
    ensures IsRun(run, labels) && |labels| == 1 && StorageIn(run[0], 7) == 50
    ensures labels[0] == CheckWipe(0, 7, IfUnmodifiedSince(50))
    ensures var s := run[1];
      && s.b.Mysql? && s.sessions == map[] && s.uuids == {} && s.wipes == map[0 := 7]
      && VersionIn(s, (7, 1)) == Some(50)
  {
    var s := Alone(Mysql, Tables(map[(7, 1) := 50], map[], map[]), 50);
    Begin(s);
    assert UserVersions(Mysql, s.t.versions, 7) == {50} by { assert s.t.versions[(7, 1)] == 50; }
    var check := CheckWipe(0, 7, IfUnmodifiedSince(50));
    Extend([s], [], check);
    run, labels := [s] + [Step(s, check)], [] + [check];
  }

  /** A DELETE /storage on the condition that nothing is newer than 50 passes its check, and erases a write at 60. */
  lemma UnseenWriteIsErased() returns (run: seq<State>, labels: seq<Label>)
    ensures IsRun(run, labels) && |labels| == 6 && StorageIn(run[0], 7) == 50
    ensures labels[0] == CheckWipe(0, 7, IfUnmodifiedSince(50)) && labels[5] == Wipe(0, 7)
    ensures WritesUnder50(run[4], labels[4])
    ensures VersionIn(run[5], (7, 1)) == Some(60) && VersionIn(run[6], (7, 1)) == None
  {
    var run1, labels1 := Checked();
    var run2, labels2 := ServeWrite(run1, labels1, 60, 1);
    Keeps(run1, labels1, run2, labels2, 0);
    Extend(run2, labels2, Wipe(0, 7));
    run, labels := run2 + [Step(run2[5], Wipe(0, 7))], labels2 + [Wipe(0, 7)];
    WipeAt(Mysql, run2[5].t, 7, (7, 1));
  }

  // ----- deletions out of order -----

  /** Sessions at 20 and 10 delete two collections in this order: the storage timestamp falls from 20 to 10. */
  lemma StorageStepsBack() returns (run: seq<State>, labels: seq<Label>)
    ensures IsRun(run, labels) && |labels| == 8
    ensures Inv(run[7]) && Deletes(run[7], labels[7], (7, 1)) && labels[7] == Commit(0) && run[7].sessions[0].ts == 10
    ensures TombstoneLeads(run[7], (7, 1), 10)
    ensures StorageIn(run[7], 7) == 20 && StorageIn(run[8], 7) == 10
  {
    var s := Alone(Mysql, Tables(map[(7, 1) := 5, (7, 2) := 5], map[], map[]), 5);
    Begin(s);
    var run1, labels1 := ServeRemoval([s], [], 7, 2, 20, 1);
    assert VersionIn(run1[4], (7, 1)) == RemovedVersion(s, 7, 2, 20, (7, 1));
    run, labels := ServeRemoval(run1, labels1, 7, 1, 10, 2);
    RunKeepsInv(run, labels, 7);
    BothRemoved(s, run[7], run[8], run1[4]);
  }

  lemma BothRemoved(s: State, s7: State, s8: State, s4: State)
    requires s == Alone(Mysql, Tables(map[(7, 1) := 5, (7, 2) := 5], map[], map[]), 5)
    requires RemovalOf(s, s4, 7, 2, 20) && s7.b == s4.b == s8.b == Mysql && s7.t == s4.t && RemovalOf(s4, s8, 7, 1, 10)
    ensures StorageIn(s7, 7) == 20 && StorageIn(s8, 7) == 10 && TombstoneLeads(s7, (7, 1), 10)
  {
    forall k: Key
      ensures VersionIn(s7, k) == OnlyVersion(5, 20, k) && VersionIn(s8, k) == OnlyVersion(-1, 10, k)
    {
      assert VersionIn(s4, k) == RemovedVersion(s, 7, 2, 20, k);
      assert VersionIn(s8, k) == RemovedVersion(s4, 7, 1, 10, k);
    }
    OnlyVersions(s7, 5, 20);
    OnlyVersions(s8, -1, 10);
  }

  /** The versions if user 7 has a tombstone and, if `version` is not negative, collection 1. */
  function OnlyVersion(version: int, tombstone: int, k: Key): Option<int> {
    if k == (7, TOMBSTONE) then Some(tombstone) else if k == (7, 1) && version >= 0 then Some(version) else None
  }

  lemma OnlyVersions(s: State, version: int, tombstone: int)
    requires s.b.Mysql? && tombstone > version
    requires forall k: Key :: VersionIn(s, k) == OnlyVersion(version, tombstone, k)
    ensures StorageIn(s, 7) == tombstone
    ensures forall k: Key | k.0 == 7 && k != (7, TOMBSTONE) :: NotAfter(s, k, version)
  {
    assert VersionIn(s, (7, TOMBSTONE)) == OnlyVersion(version, tombstone, (7, TOMBSTONE));
    ReachedByStorage(s, 7, (7, TOMBSTONE));
    StorageReaches(s, 7);
    HasVersion(s, (7, TOMBSTONE));
    var k :| k in s.t.versions && k.0 == 7 && VersionIn(s, k).Some? && VersionIn(s, k).value >= StorageIn(s, 7);
    assert VersionIn(s, k) == OnlyVersion(version, tombstone, k);
  }

  // ----- a tombstone that goes astray -----

  /** The first user id whose tombstone is not the user's own. */
  const WIDE: U64 := 0x8000_0000

  function WideStart(): State { Alone(Mysql, Tables(map[(WIDE, 1) := 50], map[], map[]), 50) }

  lemma WideRemoval() returns (run: seq<State>, labels: seq<Label>)
    ensures IsRun(run, labels) && Orderly(run, labels) && |labels| == 4
    ensures Deletes(run[3], labels[3], (WIDE, 1)) && run[3].b == run[4].b == Mysql
    ensures run[3].t == WideStart().t && RemovalOf(WideStart(), run[4], WIDE, 1, 60)
  {
    Begin(WideStart());
    run, labels := ServeRemoval([WideStart()], [], WIDE, 1, 60, 1);
  }

  /**
   * A user from 2^31 on deletes the only collection: in a run whose sessions commit in order the
   * storage timestamp falls from 50 to 0, and a negative user id has the tombstone.
   */
  lemma TombstoneGoesAstray() returns (run: seq<State>, labels: seq<Label>)
    ensures IsRun(run, labels) && Orderly(run, labels) && |labels| == 4
    ensures Deletes(run[3], labels[3], (WIDE, 1)) && LeadsAlone(run[3], (WIDE, 1))
    ensures StorageIn(run[3], WIDE) == 50 && StorageIn(run[4], WIDE) == 0
    ensures AsI32(WIDE) == -0x8000_0000 && VersionIn(run[4], (AsI32(WIDE), TOMBSTONE)) == Some(60)
  {
    run, labels := WideRemoval();
    OneVersion(WideStart(), run[3], run[4]);
  }

  lemma OneVersion(s: State, s3: State, s4: State)
    requires s == WideStart()
    requires s3.b == s4.b == Mysql && s3.t == s.t && RemovalOf(s, s4, WIDE, 1, 60)
    ensures StorageIn(s3, WIDE) == 50 && StorageIn(s4, WIDE) == 0 && LeadsAlone(s3, (WIDE, 1))
    ensures AsI32(WIDE) == -0x8000_0000 && VersionIn(s4, (AsI32(WIDE), TOMBSTONE)) == Some(60)
  {
    assert VersionIn(s4, (AsI32(WIDE), TOMBSTONE)) == RemovedVersion(s, WIDE, 1, 60, (AsI32(WIDE), TOMBSTONE));
    assert s3.t.versions[(WIDE, 1)] in UserVersions(Mysql, s3.t.versions, WIDE);
    forall k: Key | k.0 == WIDE
      ensures VersionIn(s4, k) == None && VersionIn(s3, k) == if k == (WIDE, 1) then Some(50) else None
    {
      assert VersionIn(s4, k) == RemovedVersion(s, WIDE, 1, 60, k);
    }
    StorageReaches(s3, WIDE);
    StorageReaches(s4, WIDE);
  }

  // ----- an id that returns -----

  /** A POST without records to a new batch. */
  function NewUpload(commit: bool): Request { Request(7, 1, None, Anytime, PostBatch(None, commit, [], {})) }

  lemma NewUploadOk(x: Context, uuid: int, commit: bool)
    requires x.b.Mysql? && x.ts !in x.found.batches
    ensures HandleBatch(x, Calm(uuid), NOTHING, None, commit, [], {}).r.Ok?
  {}

  lemma NewUploadCommits(t: Tables, x: Context, env: Env, commit: bool)
    requires x.b.Mysql?
    ensures CommitTables(t, HandleBatch(x, env, NOTHING, None, commit, [], {}).p).Ok?
  {
    CommitWithoutMutations(t, HandleBatch(x, env, NOTHING, None, commit, [], {}).p);
  }

  lemma UploadSucceeds(s: State, commit: bool, ts: int, uuid: int)
    requires s.b.Mysql? && VersionIn(s, (7, 1)).None? && ts !in CollectionAt(s.t, (7, 1)).batches
    ensures Handlers.Served(s.b, s.t, ts, Calm(uuid), false, NewUpload(commit)).1.Ok?
  {
    var x := ContextOf(s.b, s.t, 7, 1, ts);
    NewUploadOk(x, uuid, commit);
    NewUploadCommits(s.t, x, Calm(uuid), commit);
  }

  function UploadEntry(s: State, commit: bool, ts: int, uuid: int): Entry {
    Entry.Served(NewUpload(commit), ContextOf(s.b, s.t, 7, 1, ts), Calm(uuid))
  }

  lemma UploadEntryEffect(s: State, commit: bool, ts: int, uuid: int)
    requires s.b.Mysql? && ts !in CollectionAt(s.t, (7, 1)).batches
    ensures var e := UploadEntry(s, commit, ts, uuid);
      && On(e, (7, 1))
      && EntryEffect(e) == if commit then BatchLife.Committed(ts, true) else BatchLife.Submitted(ts, true, [])
  {
    NewUploadOk(ContextOf(s.b, s.t, 7, 1, ts), uuid, commit);
  }

  lemma ServeUpload(run: seq<State>, labels: seq<Label>, commit: bool, ts: int, uuid: int)
      returns (run': seq<State>, labels': seq<Label>)
    requires IsRun(run, labels) && AllInOrder(run, labels)
    requires var s := run[|labels|];
      && s.b.Mysql? && s.sessions == map[] && uuid !in s.uuids && ts > 0 && s.last <= ts
      && VersionIn(s, (7, 1)).None? && ts !in CollectionAt(s.t, (7, 1)).batches
    ensures IsRun(run', labels') && AllInOrder(run', labels') && |labels'| == |labels| + 4
    ensures Settled(run[|labels|], run'[|labels'|], uuid) && run'[|labels'|].last == ts
    ensures run'[|labels'|].wipes == run[|labels|].wipes
    ensures run'[|labels'|].log == run[|labels|].log + [UploadEntry(run[|labels|], commit, ts, uuid)]
    ensures commit ==>
      CollectionAt(run'[|labels'|].t, (7, 1)).batches == CollectionAt(run[|labels|].t, (7, 1)).batches - {ts}
  {
    var s, r, n := run[|labels|], NewUpload(commit), |labels|;
    UploadSucceeds(s, commit, ts, uuid);
    run', labels' := Serve(run, labels, r, ts, Calm(uuid));
    assert run'[n + 3].last == s.last && run'[n + 3].sessions[0].ts == ts;
    forall i | 0 <= i < |labels'|
      ensures InOrder(run'[i], labels'[i])
    {
      if i < n { Keeps(run, labels, run', labels', i); assert InOrder(run[i], labels[i]); }
    }
    if commit { UploadIsGone(run', labels', n, s, ts, uuid); }
  }

  lemma UploadPasses(x: Context, uuid: int, seen: Option<int>)
    requires x.b.Mysql? && x.ts !in x.found.batches
    ensures var done := CheckThenAct(x, Calm(uuid), seen, NewUpload(true));
      && Passed(done) && done.p == HandleBatch(x, Calm(uuid), NOTHING, None, true, [], {}).p
  {}

  lemma UploadSession(s: State, s3: State, ts: int, uuid: int)
    requires s3 == Acted3(s, NewUpload(true), ts, Calm(uuid))
    ensures 0 in s3.sessions && s3.sessions[0] == SessionOf(s, NewUpload(true), ts, Calm(uuid))
    ensures EntryOf(s3, 0) == UploadEntry(s, true, ts, uuid)
  {}

  lemma UploadCommits(s: State, s3: State, ts: int, uuid: int)
    requires s.b.Mysql? && ts !in CollectionAt(s.t, (7, 1)).batches
    requires s3 == Acted3(s, NewUpload(true), ts, Calm(uuid))
    ensures CommitsBatch(s3, Commit(0), (7, 1)) && EntryEffect(EntryOf(s3, 0)) == BatchLife.Committed(ts, true)
  {
    var x := ContextOf(s.b, s.t, 7, 1, ts);
    UploadSession(s, s3, ts, uuid);
    UploadPasses(x, uuid, s3.sessions[0].phase.seen);
    NewUploadCommits(s.t, x, Calm(uuid), true);
    UploadEntryEffect(s, true, ts, uuid);
  }

  lemma UploadIsGone(run: seq<State>, labels: seq<Label>, n: nat, s: State, ts: int, uuid: int)
    requires IsRun(run, labels) && |labels| == n + 4 && labels[n + 3] == Commit(0)
    requires s.b.Mysql? && VersionIn(s, (7, 1)).None? && ts !in CollectionAt(s.t, (7, 1)).batches
    requires run[n + 3] == Acted3(s, NewUpload(true), ts, Calm(uuid))
    ensures CollectionAt(run[n + 4].t, (7, 1)).batches == CollectionAt(s.t, (7, 1)).batches - {ts}
  {
    UploadCommits(s, run[n + 3], ts, uuid);
    BatchIsApplied(run, labels, n + 3, (7, 1));
  }

  lemma WipeInRun(run: seq<State>, labels: seq<Label>) returns (run': seq<State>, labels': seq<Label>)
    requires IsRun(run, labels) && AllInOrder(run, labels)
    requires run[|labels|].b.Mysql? && run[|labels|].sessions == map[] && run[|labels|].wipes == map[]
    ensures IsRun(run', labels') && AllInOrder(run', labels') && |labels'| == |labels| + 2
    ensures var s, s' := run[|labels|], run'[|labels'|];
      && s'.b == s.b && s'.sessions == map[] && s'.uuids == s.uuids && s'.last == s.last && s'.log == s.log + [Wiped(7)]
      && VersionIn(s', (7, 1)).None? && CollectionAt(s'.t, (7, 1)).batches == CollectionAt(s.t, (7, 1)).batches
  {
    var s, check := run[|labels|], CheckWipe(0, 7, Anytime);
    Extend(run, labels, check);
    run', labels' := run + [Step(s, check)], labels + [check];
    var s1 := Step(s, check);
    Extend(run', labels', Wipe(0, 7));
    run', labels' := run' + [Step(s1, Wipe(0, 7))], labels' + [Wipe(0, 7)];
    WipeAt(s1.b, s1.t, 7, (7, 1));
    forall i | 0 <= i < |labels'|
      ensures InOrder(run'[i], labels'[i])
    {
      if i < |labels| { assert run'[i] == run[i] && labels'[i] == labels[i] && InOrder(run[i], labels[i]); }
    }
  }

  /** All in one tick: a batch is created and committed, the storage is deleted, and the next batch gets the same id. */
  lemma IdReturns() returns (run: seq<State>, labels: seq<Label>)
    ensures IsRun(run, labels) && AllInOrder(run, labels) && |labels| == 10
    ensures var log := run[10].log;
      && |log| == 3 && Spends(log[0], (7, 1), 10) && Forgets(Mysql, log[1], (7, 1)) && About(log[2], (7, 1), 10)
      && EntryEffect(log[2]) == BatchLife.Submitted(10, true, [])
  {
    var s := Alone(Mysql, Tables(map[], map[], map[]), 0);
    Begin(s);
    var run1, labels1 := ServeUpload([s], [], true, 10, 1);
    var run2, labels2 := WipeInRun(run1, labels1);
    run, labels := ServeUpload(run2, labels2, false, 10, 2);
    UploadEntryEffect(s, true, 10, 1);
    UploadEntryEffect(run2[6], false, 10, 2);
  }

  // ----- a batch committed by an earlier session -----

  /** What MySQL stores for a batch without records. */
  function EmptyBatch(ts: int): Batch { Batch(Content.Text(""), ts + BATCH_LIFETIME) }

  /** A POST without records that commits a batch. */
  function CommitUpload(id: int): Request { Request(7, 1, None, Anytime, PostBatch(Some(id), true, [], {})) }

  lemma NothingEncoded()
    ensures BatchString.BsosToBatchString([]) == "" && BatchString.BatchStringToBsos("") == Ok([])
  {}

  function HereIn(s: State): Collection { CollectionAt(s.t, (7, 1)) }

  lemma NewUploadPending(x: Context, uuid: int)
    requires x.b.Mysql? && x.ts !in x.found.batches
    ensures var done := HandleBatch(x, Calm(uuid), NOTHING, None, false, [], {});
      && done.r.Ok? && done.r.value == BatchReply(x, false, Ok(()), x.ts, [], {})
      && done.p == SetBatches(x, NOTHING, x.found.batches[x.ts := EmptyBatch(x.ts)])
  {
    NothingEncoded();
    SetTwice(x.found.batches, x.ts, EmptyBatch(x.ts), EmptyBatch(x.ts));
    SetTwice(map[], KeyOf(x), x.found.batches[x.ts := EmptyBatch(x.ts)], x.found.batches[x.ts := EmptyBatch(x.ts)]);
  }

  lemma CommitUploadPending(x: Context, uuid: int, id: int)
    requires x.b.Mysql? && id in x.found.batches
    requires x.found.batches[id].content == Content.Text("") && x.found.batches[id].expiry > x.ts
    ensures var done := HandleBatch(x, Calm(uuid), NOTHING, Some(id), true, [], {});
      && done.r.Ok? && done.r.value == BatchReply(x, true, Ok(()), id, [], {})
      && done.p.versions == map[TouchedKey(x) := Some(x.ts)] && done.p.mutations == map[]
      && BatchesAt(x, done.p) == x.found.batches - {id}
  {}

  /** The collection has no version that is in the way of a session at `ts`. */
  predicate Below(s: State, ts: int) { VersionIn(s, (7, 1)).Some? ==> VersionIn(s, (7, 1)).value < ts }

  lemma NewUploadLeaves(s: State, ts: int, uuid: int)
    requires s.b.Mysql? && Below(s, ts) && ts !in HereIn(s).batches
    ensures var (t', reply) := Handlers.Served(s.b, s.t, ts, Calm(uuid), false, NewUpload(false));
      reply.Ok? && CollectionAt(t', (7, 1)) == HereIn(s).(batches := HereIn(s).batches[ts := EmptyBatch(ts)])
    ensures EntryEffect(UploadEntry(s, false, ts, uuid)) == BatchLife.Submitted(ts, true, [])
  {
    var x := ContextOf(s.b, s.t, 7, 1, ts);
    NewUploadPending(x, uuid);
    var p := HandleBatch(x, Calm(uuid), NOTHING, None, false, [], {}).p;
    CommitWithoutMutations(s.t, p);
    ViewAt(s.t, p, (7, 1));
    UploadEntryEffect(s, false, ts, uuid);
  }

  function CommitEntry(s: State, id: int, ts: int, uuid: int): Entry {
    Entry.Served(CommitUpload(id), ContextOf(s.b, s.t, 7, 1, ts), Calm(uuid))
  }

  lemma CommitUploadLeaves(s: State, id: int, ts: int, uuid: int)
    requires s.b.Mysql? && Below(s, ts) && id in HereIn(s).batches
    requires HereIn(s).batches[id].content == Content.Text("") && HereIn(s).batches[id].expiry > ts
    ensures var (t', reply) := Handlers.Served(s.b, s.t, ts, Calm(uuid), false, CommitUpload(id));
      && reply.Ok? && CollectionAt(t', (7, 1)).version == Some(ts)
      && CollectionAt(t', (7, 1)).batches == HereIn(s).batches - {id}
    ensures EntryEffect(CommitEntry(s, id, ts, uuid)) == BatchLife.Committed(id, false)
  {
    var x := ContextOf(s.b, s.t, 7, 1, ts);
    CommitUploadPasses(x, uuid, id, Visible(s.b, x.found.version));
    CommitUploadCommits(s, id, ts, uuid);
  }

  lemma CommitUploadPasses(x: Context, uuid: int, id: int, seen: Option<int>)
    requires x.b.Mysql? && id in x.found.batches
    requires x.found.batches[id].content == Content.Text("") && x.found.batches[id].expiry > x.ts
    ensures var done := CheckThenAct(x, Calm(uuid), seen, CommitUpload(id));
      Passed(done) && done == HandleBatch(x, Calm(uuid), NOTHING, Some(id), true, [], {})
  {
    CommitUploadPending(x, uuid, id);
  }

  lemma CommitUploadCommits(s: State, id: int, ts: int, uuid: int)
    requires s.b.Mysql? && id in HereIn(s).batches
    requires HereIn(s).batches[id].content == Content.Text("") && HereIn(s).batches[id].expiry > ts
    ensures var x := ContextOf(s.b, s.t, 7, 1, ts);
      var committed := CommitTables(s.t, HandleBatch(x, Calm(uuid), NOTHING, Some(id), true, [], {}).p);
      && committed.Ok? && CollectionAt(committed.value, (7, 1)).version == Some(ts)
      && CollectionAt(committed.value, (7, 1)).batches == HereIn(s).batches - {id}
  {
    var x := ContextOf(s.b, s.t, 7, 1, ts);
    CommitUploadPending(x, uuid, id);
    TouchesTheLockedRow(x);
    var p := HandleBatch(x, Calm(uuid), NOTHING, Some(id), true, [], {}).p;
    CommitWithoutMutations(s.t, p);
    ViewAt(s.t, p, (7, 1));
  }

  /** Nobody is at work in a run on MySQL, and `uuid` is free. */
  predicate Idle(s: State, uuid: int) { s.b.Mysql? && s.sessions == map[] && uuid !in s.uuids }

  lemma ServeNewUpload(run: seq<State>, labels: seq<Label>, ts: int, uuid: int)
      returns (run': seq<State>, labels': seq<Label>)
    requires IsRun(run, labels) && ts > 0
    requires var s := run[|labels|]; Idle(s, uuid) && Below(s, ts) && ts !in HereIn(s).batches
    ensures IsRun(run', labels') && |labels'| == |labels| + 4
    ensures var s, s' := run[|labels|], run'[|labels'|];
      && Settled(s, s', uuid) && HereIn(s') == HereIn(s).(batches := HereIn(s).batches[ts := EmptyBatch(ts)])
      && s'.log == s.log + [UploadEntry(s, false, ts, uuid)]
    ensures EntryEffect(UploadEntry(run[|labels|], false, ts, uuid)) == BatchLife.Submitted(ts, true, [])
  {
    NewUploadLeaves(run[|labels|], ts, uuid);
    run', labels' := Serve(run, labels, NewUpload(false), ts, Calm(uuid));
  }

  lemma ServeCommitUpload(run: seq<State>, labels: seq<Label>, id: int, ts: int, uuid: int)
      returns (run': seq<State>, labels': seq<Label>)
    requires IsRun(run, labels) && ts > 0
    requires var s := run[|labels|];
      && Idle(s, uuid) && Below(s, ts) && id in HereIn(s).batches
      && HereIn(s).batches[id].content == Content.Text("") && HereIn(s).batches[id].expiry > ts
    ensures IsRun(run', labels') && |labels'| == |labels| + 4
    ensures var s, s' := run[|labels|], run'[|labels'|];
      && Settled(s, s', uuid) && HereIn(s').version == Some(ts) && HereIn(s').batches == HereIn(s).batches - {id}
      && s'.log == s.log + [CommitEntry(s, id, ts, uuid)]
    ensures EntryEffect(CommitEntry(run[|labels|], id, ts, uuid)) == BatchLife.Committed(id, false)
  {
    CommitUploadLeaves(run[|labels|], id, ts, uuid);
    run', labels' := Serve(run, labels, CommitUpload(id), ts, Calm(uuid));
  }

  lemma Created() returns (run: seq<State>, labels: seq<Label>)
    ensures IsRun(run, labels) && |labels| == 4
    ensures var s := run[4];
      && Idle(s, 2) && Idle(s, 3) && |s.log| == 1 && HereIn(s) == Collection(None, map[], map[20 := EmptyBatch(20)])
  {
    var s := Alone(Mysql, Tables(map[], map[], map[]), 0);
    Begin(s);
    run, labels := ServeNewUpload([s], [], 20, 1);
  }

  lemma CommittedEarlier() returns (run: seq<State>, labels: seq<Label>)
    ensures IsRun(run, labels) && |labels| == 8
    ensures var s := run[8];
      && Idle(s, 3) && HereIn(s).version == Some(10) && HereIn(s).batches == map[]
      && |s.log| == 2 && Spends(s.log[1], (7, 1), 20) && s.log[1].x.ts == 10
  {
    var run1, labels1 := Created();
    run, labels := ServeCommitUpload(run1, labels1, 20, 10, 2);
  }

  /**
   * A session at 20 creates a batch, a session at 10 commits it, and the next batch of a session at
   * 20 gets the same id, though nothing has been deleted.
   */
  lemma EarlierSessionCommits() returns (run: seq<State>, labels: seq<Label>)
    ensures IsRun(run, labels) && |labels| == 12
    ensures var log := run[12].log;
      && |log| == 3 && Spends(log[1], (7, 1), 20) && log[1].x.ts == 10 && About(log[2], (7, 1), 20)
      && EntryEffect(log[2]) == BatchLife.Submitted(20, true, [])
  {
    var run1, labels1 := CommittedEarlier();
    run, labels := ServeNewUpload(run1, labels1, 20, 3);
  }
}
