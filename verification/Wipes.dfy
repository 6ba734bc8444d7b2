/** DELETE /storage: its precondition is checked before its transaction begins, and without a lock. */
module Wipes {
  import opened Wrappers
  import opened Store
  import opened Handlers
  import opened Footprint
  import opened Protocol
  import opened Versions
  import opened StorageTime

  /** The check of the request passes, so that it goes on to delete. */
  predicate Passes(s: State, l: Label) { l.CheckWipe? && Enabled(s, l) && l.wid in Step(s, l).wipes }

  lemma PassesExactly(s: State, l: Label, header: int)
    requires l.CheckWipe? && Enabled(s, l) && l.precondition == IfUnmodifiedSince(header)
    ensures Passes(s, l) <==> StorageIn(s, StoredUser(s.b, l.u)) <= header
  {}

  /** Nothing of the user but perhaps one collection is newer than what the client has seen. */
  ghost predicate SeenBut(s: State, user: int, k: Key, header: int) {
    forall j: Key | j.0 == user && j != k :: NotAfter(s, j, header)
  }

  lemma SeenStorage(s: State, user: int, k: Key, header: int)
    requires k.0 == user && SeenBut(s, user, k, header) && header >= 0
    ensures StorageIn(s, user) <= header <==> NotAfter(s, k, header)
  {
    NothingIsZero(s, user);
    StorageReaches(s, user);
    if VersionIn(s, k).Some? { ReachedByStorage(s, user, k); }
  }

  /**
   * Whether a write is lost to a conditional DELETE /storage that has not seen it: the request goes
   * on to delete if and only if the write has been committed after its check.
   */
  lemma UnseenWriteIsLostInBetween(run: seq<State>, labels: seq<Label>, i: nat, m: nat, k: Key, header: int)
    requires IsRun(run, labels) && i < |labels| && m < |labels| && k.1 >= 1 && header >= 0
    requires labels[i].CheckWipe? && labels[i].precondition == IfUnmodifiedSince(header)
    requires StoredUser(run[i].b, labels[i].u) == k.0 && SeenBut(run[i], k.0, k, header)
    requires Wrote(run[m], labels[m], k) && run[m].sessions[labels[m].sid].ts > header
    requires m < i ==> Kept(run, k, m + 1, i)
    requires i < m ==> NotAfter(run[i], k, header)
    ensures Passes(run[i], labels[i]) <==> i < m
  {
    PassesExactly(run[i], labels[i], header);
    SeenStorage(run[i], k.0, k, header);
    if m < i {
      RunKeepsInv(run, labels, m);
      VersionStep(run[m], labels[m], k);
      VersionsIncrease(run, labels, k, m + 1, i);
    }
  }

  /** The deletion itself asks nothing any more: whatever the user has is gone. */
  lemma DeletionIsUnconditional(s: State, l: Label, k: Key)
    requires Enabled(s, l) && l.Wipe? && k.0 == StoredUser(s.b, l.u)
    ensures VersionIn(Step(s, l), k) == None && CollectionAt(Step(s, l).t, k).rows == map[]
  {}
}
