/**
 * Committed batches on MySQL when sessions commit in any order of their timestamps: what then
 * still keeps the id of a batch, which is a timestamp, from returning.
 */
module BatchAnyOrder {
  import opened Wrappers
  import opened Store
  import opened Handlers
  import opened Footprint
  import opened Protocol
  import opened Versions
  import opened BatchLife
  import opened BatchRuns
  import opened BatchOnce

  /** The entry removes the collection, and with it the version that keeps ids from returning. */
  predicate Clears(e: Entry, k: Key) {
    if e.Wiped? then StoredUser(Mysql, e.u) == k.0 else On(e, k) && e.r.action.DelCollection?
  }

  /** The batch is committed by a session that is not earlier than its id. */
  predicate SpendsLate(e: Entry, k: Key, id: int) { Spends(e, k, id) && id <= e.x.ts }

  /** .. and the collection has not been removed since. */
  predicate LateSpent(log: seq<Entry>, k: Key, id: int) {
    |log| > 0 && !Clears(log[|log| - 1], k)
    && (SpendsLate(log[|log| - 1], k, id) || LateSpent(log[..|log| - 1], k, id))
  }

  lemma LateSpentSnoc(log: seq<Entry>, e: Entry, k: Key, id: int)
    ensures LateSpent(log + [e], k, id) <==> !Clears(e, k) && (SpendsLate(e, k, id) || LateSpent(log, k, id))
  {}

  predicate ClearedAfter(log: seq<Entry>, k: Key, i: nat) { exists w | i < w < |log| :: Clears(log[w], k) }

  lemma {:induction false} LateSpentOrCleared(log: seq<Entry>, k: Key, id: int, i: nat)
    requires i < |log| && SpendsLate(log[i], k, id) && !Clears(log[i], k)
    ensures LateSpent(log, k, id) || ClearedAfter(log, k, i)
  {
    var n := |log| - 1;
    if i < n && !Clears(log[n], k) {
      LateSpentOrCleared(log[..n], k, id, i);
      if ClearedAfter(log[..n], k, i) {
        var w :| i < w < n && Clears(log[..n][w], k);
        assert Clears(log[w], k);
      }
    }
  }

  /** The collection's version has passed the id, and the batch is gone. */
  predicate PastId(s: State, k: Key, id: int) {
    LateSpent(s.log, k, id) ==>
      id !in CollectionAt(s.t, k).batches && VersionIn(s, k).Some? && id <= VersionIn(s, k).value
  }

  /** What a request is about has not been passed: an id it names is still there, one it gets is its timestamp. */
  lemma NotAboutPast(s: State, sid: int, id: int)
    requires Inv(s) && AllStand(s) && Enabled(s, Commit(sid)) && CommitTables(s.t, DoneOf(s.sessions[sid]).p).Ok?
    requires s.b.Mysql? && PastId(s, KeyFor(s.b, s.sessions[sid].r), id)
    ensures LateSpent(s.log, KeyFor(s.b, s.sessions[sid].r), id) ==>
      !About(EntryOf(s, sid), KeyFor(s.b, s.sessions[sid].r), id)
  {
    CommitBatches(s, sid);
  }

  /** Only a DELETE of the collection takes its version away. */
  lemma OnlyDeletionClears(s: State, sid: int, k: Key)
    requires Inv(s) && Enabled(s, Commit(sid)) && CommitTables(s.t, DoneOf(s.sessions[sid]).p).Ok?
    requires KeyFor(s.b, s.sessions[sid].r) == k && s.b.Mysql?
    requires VersionIn(s, k).Some? && VersionIn(Step(s, Commit(sid)), k).None?
    ensures s.sessions[sid].r.action.DelCollection?
  {
    CommittedVersion(s, Commit(sid), k);
    assert SessionInv(s.b, s.t, s.sessions[sid]);
    if Carried(s, Commit(sid), k) { CarriedShape(s, Commit(sid), k); }
  }

  lemma CommitHerePast(s: State, sid: int, k: Key, id: int)
    requires Inv(s) && AllStand(s) && Enabled(s, Commit(sid)) && CommitTables(s.t, DoneOf(s.sessions[sid]).p).Ok?
    requires s.b.Mysql? && k.1 >= 1 && KeyFor(s.b, s.sessions[sid].r) == k && PastId(s, k, id)
    ensures PastId(Step(s, Commit(sid)), k, id)
  {
    var e, s' := EntryOf(s, sid), Step(s, Commit(sid));
    CommitBatches(s, sid);
    LateSpentSnoc(s.log, e, k, id);
    NewlySpent(e.x, CollectionAt(s'.t, k).batches, e, id);
    NotAboutPast(s, sid, id);
    VersionStep(s, Commit(sid), k);
    if SpendsLate(e, k, id) { CommittedIsWrite(s, sid, k); }
    if VersionIn(s, k).Some? && VersionIn(s', k).None? { OnlyDeletionClears(s, sid, k); }
  }

  lemma StepKeepsPast(s: State, l: Label, k: Key, id: int)
    requires Inv(s) && AllStand(s) && Enabled(s, l) && s.b.Mysql? && k.1 >= 1 && PastId(s, k, id)
    ensures PastId(Step(s, l), k, id)
  {
    if l.Commit? && CommitTables(s.t, DoneOf(s.sessions[l.sid]).p).Ok? {
      if KeyFor(s.b, s.sessions[l.sid].r) == k {
        CommitHerePast(s, l.sid, k, id);
      } else {
        CommitKeepsOthers(s, l.sid, k);
        assert SessionInv(s.b, s.t, s.sessions[l.sid]);
        LateSpentSnoc(s.log, EntryOf(s, l.sid), k, id);
      }
    } else if l.Wipe? {
      WipeAt(s.b, s.t, l.u, k);
      LateSpentSnoc(s.log, Wiped(l.u), k, id);
    }
  }

  lemma {:induction false} RunKeepsPast(run: seq<State>, labels: seq<Label>, i: nat, k: Key, id: int)
    requires IsRun(run, labels) && i < |run| && run[0].b.Mysql? && k.1 >= 1
    ensures PastId(run[i], k, id)
  {
    if i > 0 {
      RunKeepsPast(run, labels, i - 1, k, id);
      RunKeepsInv(run, labels, i - 1);
      RunStands(run, labels, i - 1);
      StepKeepsPast(run[i - 1], labels[i - 1], k, id);
    }
  }

  /** Nothing about a batch follows its commit by a session that is not earlier, until the collection is removed. */
  predicate OverUntilCleared(log: seq<Entry>, k: Key, id: int) {
    forall i, j | 0 <= i < j < |log| ::
      SpendsLate(log[i], k, id) && About(log[j], k, id) ==> ClearedAfter(log[..j], k, i)
  }

  lemma SpendingIsNoClearing(e: Entry, k: Key, id: int)
    requires Spends(e, k, id)
    ensures !Clears(e, k)
  {}

  lemma OverUntilSnoc(log: seq<Entry>, e: Entry, k: Key, id: int)
    requires OverUntilCleared(log, k, id) && (LateSpent(log, k, id) ==> !About(e, k, id))
    ensures OverUntilCleared(log + [e], k, id)
  {
    var more := log + [e];
    forall i, j | 0 <= i < j < |more| && SpendsLate(more[i], k, id) && About(more[j], k, id)
      ensures ClearedAfter(more[..j], k, i)
    {
      assert more[i] == log[i];
      if j < |log| {
        assert more[j] == log[j] && more[..j] == log[..j];
      } else {
        assert more[..j] == log;
        SpendingIsNoClearing(log[i], k, id);
        LateSpentOrCleared(log, k, id, i);
      }
    }
  }

  lemma StepKeepsOverUntilCleared(s: State, l: Label, k: Key, id: int)
    requires Inv(s) && AllStand(s) && Enabled(s, l) && s.b.Mysql? && PastId(s, k, id)
    requires OverUntilCleared(s.log, k, id)
    ensures OverUntilCleared(Step(s, l).log, k, id)
  {
    if l.Commit? && CommitTables(s.t, DoneOf(s.sessions[l.sid]).p).Ok? {
      CommitBatches(s, l.sid);
      if KeyFor(s.b, s.sessions[l.sid].r) == k { NotAboutPast(s, l.sid, id); }
      OverUntilSnoc(s.log, EntryOf(s, l.sid), k, id);
    } else if l.Wipe? {
      OverUntilSnoc(s.log, Wiped(l.u), k, id);
    }
  }

  /**
   * MySQL, whatever the order of the timestamps: a batch that has been committed by a session not
   * earlier than its id is over, until the collection or the whole storage is deleted.
   */
  lemma {:induction false} BatchOverUntilCleared(run: seq<State>, labels: seq<Label>, i: nat, k: Key, id: int)
    requires IsRun(run, labels) && i < |run| && run[0].b.Mysql? && k.1 >= 1
    ensures OverUntilCleared(run[i].log, k, id)
  {
    if i > 0 {
      BatchOverUntilCleared(run, labels, i - 1, k, id);
      RunKeepsPast(run, labels, i - 1, k, id);
      RunKeepsInv(run, labels, i - 1);
      RunStands(run, labels, i - 1);
      StepKeepsOverUntilCleared(run[i - 1], labels[i - 1], k, id);
    }
  }
}
