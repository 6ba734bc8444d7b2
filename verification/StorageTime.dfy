/**
 * A user's storage timestamp, the latest version of any of the user's collections: when exactly it
 * goes back, and that uploading batches does not show in it.
 */
module StorageTime {
  import opened Wrappers
  import opened Bso
  import opened Store
  import opened Handlers
  import opened Footprint
  import opened Protocol
  import opened Versions
  import SpannerPost

  /** The users whose tombstone is their own. */
  predicate InRange(b: Backend, user: int) { b.Mysql? ==> 0 <= user < 0x8000_0000 }

  /** All the users that sessions are about. */
  predicate Known(b: Backend, user: int) { b.Mysql? ==> 0 <= user < 0x1_0000_0000 }

  function StorageIn(s: State, user: int): int { StorageTimestamp(s.b, s.t.versions, user) }

  /** Some collection of the user is at least that new. */
  predicate Reaches(s: State, user: int, ts: int) {
    exists k | k in s.t.versions :: k.0 == user && VersionIn(s, k).Some? && VersionIn(s, k).value >= ts
  }

  lemma StorageReaches(s: State, user: int)
    ensures UserVersions(s.b, s.t.versions, user) != {} ==> Reaches(s, user, StorageIn(s, user))
  {}

  lemma ReachedByStorage(s: State, user: int, k: Key)
    requires k.0 == user && VersionIn(s, k).Some?
    ensures VersionIn(s, k).value <= StorageIn(s, user)
  {
    assert s.t.versions[k] in UserVersions(s.b, s.t.versions, user);
  }

  // ----- sessions that commit in the order of their timestamps -----

  predicate CommitsInOrder(s: State, l: Label) {
    l.Commit? && Enabled(s, l) ==> s.last <= s.sessions[l.sid].ts
  }

  predicate Orderly(run: seq<State>, labels: seq<Label>)
    requires |run| == |labels| + 1
  {
    forall i | 0 <= i < |labels| :: CommitsInOrder(run[i], labels[i])
  }

  predicate NotAfter(s: State, k: Key, ts: int) { VersionIn(s, k).Some? ==> VersionIn(s, k).value <= ts }

  /** No version is later than the last commit. */
  ghost predicate UpToLast(s: State) { forall k :: NotAfter(s, k, s.last) }

  /** The version of any row, the tombstone included, after a commit. */
  lemma CommittedAt(s: State, l: Label, j: Key)
    requires Inv(s) && Enabled(s, l) && l.Commit? && CommitTables(s.t, DoneOf(s.sessions[l.sid]).p).Ok?
    ensures var session := s.sessions[l.sid];
      var x, p := session.phase.x, DoneOf(session).p;
      && SessionInv(s.b, s.t, session) && Sound(x) && Shape(x, p)
      && (j == KeyOf(x) ==> VersionIn(Step(s, l), j) == Visible(s.b, VersionAfter(x, p)))
      && (j == TombstoneKey(x) && Removed(x, p) ==> VersionIn(Step(s, l), j) == Visible(s.b, Some(x.ts)))
      && (j != KeyOf(x) && !(j == TombstoneKey(x) && Removed(x, p)) ==> VersionIn(Step(s, l), j) == VersionIn(s, j))
  {
    var session := s.sessions[l.sid];
    assert SessionInv(s.b, s.t, session);
    CommitShape(s, l.sid);
    if j == KeyOf(session.phase.x) {
      CommitHere(s.t, session.phase.x, DoneOf(session).p);
    } else {
      CommitElsewhere(s.t, session.phase.x, DoneOf(session).p, j);
    }
  }

  lemma ShapeVersions(x: Context, p: Pending)
    requires Sound(x) && Shape(x, p)
    ensures var v := Visible(x.b, VersionAfter(x, p));
      v == Visible(x.b, x.found.version) || v.None? || v == Some(x.ts)
    ensures VersionAfter(x, p).None? && x.found.version.Some? ==> Removed(x, p)
    ensures Visible(x.b, VersionAfter(x, p)).None? && Visible(x.b, x.found.version).Some? && x.ts > 0 ==> Removed(x, p)
  {}

  lemma CommittedNotAfter(s: State, l: Label, j: Key)
    requires Inv(s) && NotAfter(s, j, s.last) && Enabled(s, l) && l.Commit? && CommitsInOrder(s, l)
    requires CommitTables(s.t, DoneOf(s.sessions[l.sid]).p).Ok?
    ensures NotAfter(Step(s, l), j, s.sessions[l.sid].ts)
  {
    CommittedAt(s, l, j);
    ShapeVersions(s.sessions[l.sid].phase.x, DoneOf(s.sessions[l.sid]).p);
  }

  lemma CommitKeepsUpToLast(s: State, l: Label)
    requires Inv(s) && UpToLast(s) && Enabled(s, l) && l.Commit? && CommitsInOrder(s, l)
    ensures UpToLast(Step(s, l))
  {
    forall j
      ensures NotAfter(Step(s, l), j, Step(s, l).last)
    {
      assert NotAfter(s, j, s.last);
      if CommitTables(s.t, DoneOf(s.sessions[l.sid]).p).Ok? { CommittedNotAfter(s, l, j); }
    }
  }

  lemma WipeKeepsUpToLast(s: State, l: Label)
    requires UpToLast(s) && Enabled(s, l) && l.Wipe?
    ensures UpToLast(Step(s, l))
  {
    forall j
      ensures NotAfter(Step(s, l), j, s.last)
    {
      WipeAt(s.b, s.t, l.u, j);
      assert NotAfter(s, j, s.last);
    }
  }

  lemma StepKeepsUpToLast(s: State, l: Label)
    requires Inv(s) && UpToLast(s) && Enabled(s, l) && CommitsInOrder(s, l)
    ensures UpToLast(Step(s, l))
  {
    if l.Commit? {
      CommitKeepsUpToLast(s, l);
    } else if l.Wipe? {
      WipeKeepsUpToLast(s, l);
    } else {
      forall j
        ensures NotAfter(Step(s, l), j, s.last)
      {
        assert NotAfter(s, j, s.last);
      }
    }
  }

  lemma HasVersion(s: State, k: Key)
    ensures VersionIn(s, k).Some? ==> UserVersions(s.b, s.t.versions, k.0) != {}
  {
    if VersionIn(s, k).Some? { assert s.t.versions[k] in UserVersions(s.b, s.t.versions, k.0); }
  }

  lemma NothingIsZero(s: State, user: int)
    ensures UserVersions(s.b, s.t.versions, user) == {} ==> StorageIn(s, user) == 0
  {}

  lemma StorageNotNegative(s: State, l: Label, user: int)
    requires Inv(s) && Enabled(s, l) && l.Commit? && UserVersions(s.b, s.t.versions, user) == {}
    ensures StorageIn(Step(s, l), user) >= 0
  {
    var s' := Step(s, l);
    var versions := UserVersions(s.b, s'.t.versions, user);
    if versions != {} && CommitTables(s.t, DoneOf(s.sessions[l.sid]).p).Ok? {
      StorageReaches(s', user);
      var k :|
        k in s'.t.versions && k.0 == user && VersionIn(s', k).Some? && VersionIn(s', k).value >= StorageIn(s', user);
      ReachedByStorage(s', user, k);
      CommittedAt(s, l, k);
      ShapeVersions(s.sessions[l.sid].phase.x, DoneOf(s.sessions[l.sid]).p);
      HasVersion(s, k);
    }
  }

  lemma WipedElsewhere(s: State, l: Label, user: int)
    requires Enabled(s, l) && l.Wipe? && StoredUser(s.b, l.u) != user
    ensures StorageIn(Step(s, l), user) == StorageIn(s, user)
  {
    forall k: Key | k.0 == user
      ensures VersionIn(Step(s, l), k) == VersionIn(s, k)
    {
      WipeAt(s.b, s.t, l.u, k);
    }
    SameVersionsSameStorage(s, Step(s, l), user);
  }

  lemma SameVersionsSameStorage(s: State, s': State, user: int)
    requires s'.b == s.b
    requires forall k: Key | k.0 == user :: VersionIn(s', k) == VersionIn(s, k)
    ensures StorageIn(s', user) == StorageIn(s, user)
  {
    var a, b := UserVersions(s.b, s.t.versions, user), UserVersions(s.b, s'.t.versions, user);
    forall v
      ensures v in a <==> v in b
    {
      if v in a {
        var k :| k in s.t.versions && k.0 == user && Visible(s.b, Some(s.t.versions[k])).Some? && s.t.versions[k] == v;
        assert VersionIn(s', k) == VersionIn(s, k);
      }
      if v in b {
        var k :|
          k in s'.t.versions && k.0 == user && Visible(s.b, Some(s'.t.versions[k])).Some? && s'.t.versions[k] == v;
        assert VersionIn(s', k) == VersionIn(s, k);
      }
    }
    assert a == b;
  }

  lemma {:induction false} RunKeepsUpToLast(run: seq<State>, labels: seq<Label>, i: nat)
    requires IsRun(run, labels) && Orderly(run, labels) && i < |run|
    ensures UpToLast(run[i])
  {
    if i == 0 {
      forall k
        ensures NotAfter(run[0], k, run[0].last)
      {}
    } else {
      RunKeepsUpToLast(run, labels, i - 1);
      RunKeepsInv(run, labels, i - 1);
      StepKeepsUpToLast(run[i - 1], labels[i - 1]);
    }
  }

  // ----- when the storage timestamp falls -----

  predicate Wiping(s: State, l: Label, user: int) { l.Wipe? && StoredUser(s.b, l.u) == user }

  function TombstoneOf(k: Key): Key { (k.0, TOMBSTONE) }

  /** The step deletes collection `k`. */
  predicate Deletes(s: State, l: Label, k: Key) {
    Carried(s, l, k) && Removed(s.sessions[l.sid].phase.x, DoneOf(s.sessions[l.sid]).p)
  }

  /** The user's tombstone is later than the timestamp of the deletion and than every other collection. */
  ghost predicate TombstoneLeads(s: State, k: Key, ts: int) {
    var tombstone := VersionIn(s, TombstoneOf(k));
    && tombstone.Some? && tombstone.value > ts
    && forall j: Key | j.0 == k.0 && j != k && j != TombstoneOf(k) :: NotAfter(s, j, tombstone.value - 1)
  }

  lemma RemovedVersions(x: Context, p: Pending)
    requires Sound(x) && Removed(x, p)
    ensures Shape(x, p) && VersionAfter(x, p) == None && TombstoneKey(x) != KeyOf(x) && Known(x.b, KeyOf(x).0)
    ensures if InRange(x.b, KeyOf(x).0) then TombstoneKey(x) == TombstoneOf(KeyOf(x)) else TombstoneKey(x).0 < 0
  {}

  /** From 2^31 on the tombstone goes to a negative user id. */
  lemma DeletedAt(s: State, l: Label, k: Key, j: Key)
    requires Inv(s) && Deletes(s, l, k) && j.0 == k.0
    ensures s.sessions[l.sid].ts > 0 && k.1 >= 1 && Known(s.b, k.0)
    ensures VersionIn(s, k).Some? ==> VersionIn(s, k).value < s.sessions[l.sid].ts
    ensures VersionIn(Step(s, l), j)
      == if j == k then None
         else if j == TombstoneOf(k) && InRange(s.b, k.0) then Some(s.sessions[l.sid].ts)
         else VersionIn(s, j)
  {
    var session := s.sessions[l.sid];
    CommittedAt(s, l, j);
    RemovedVersions(session.phase.x, DoneOf(session).p);
  }

  lemma LeadingTombstoneStepsBack(s: State, l: Label, k: Key)
    requires Inv(s) && Deletes(s, l, k) && InRange(s.b, k.0) && TombstoneLeads(s, k, s.sessions[l.sid].ts)
    ensures StorageIn(Step(s, l), k.0) < StorageIn(s, k.0)
  {
    var s' := Step(s, l);
    ReachedByStorage(s, k.0, TombstoneOf(k));
    DeletedAt(s, l, k, TombstoneOf(k));
    assert s'.t.versions[TombstoneOf(k)] in UserVersions(s.b, s'.t.versions, k.0);
    StorageReaches(s', k.0);
    var j :| j in s'.t.versions && j.0 == k.0 && VersionIn(s', j).Some? && VersionIn(s', j).value >= StorageIn(s', k.0);
    DeletedAt(s, l, k, j);
    assert j != k && j != TombstoneOf(k) ==> NotAfter(s, j, VersionIn(s, TombstoneOf(k)).value - 1);
  }

  lemma SteppingBackTombstoneLeads(s: State, l: Label, k: Key)
    requires Inv(s) && Deletes(s, l, k) && InRange(s.b, k.0) && StorageIn(Step(s, l), k.0) < StorageIn(s, k.0)
    ensures TombstoneLeads(s, k, s.sessions[l.sid].ts)
  {
    var s', user, ts := Step(s, l), k.0, s.sessions[l.sid].ts;
    DeletedAt(s, l, k, TombstoneOf(k));
    ReachedByStorage(s', user, TombstoneOf(k));
    NothingIsZero(s, user);
    StorageReaches(s, user);
    var lead :|
      && lead in s.t.versions && lead.0 == user
      && VersionIn(s, lead).Some? && VersionIn(s, lead).value >= StorageIn(s, user);
    DeletedAt(s, l, k, lead);
    if VersionIn(s', lead).Some? { ReachedByStorage(s', user, lead); }
    assert lead == TombstoneOf(k);
    forall j: Key | j.0 == user && j != k && j != TombstoneOf(k)
      ensures NotAfter(s, j, VersionIn(s, lead).value - 1)
    {
      DeletedAt(s, l, k, j);
      if VersionIn(s', j).Some? { ReachedByStorage(s', user, j); }
    }
  }

  /** The collection is later than all else that the user has. */
  ghost predicate LeadsAlone(s: State, k: Key) {
    var version := VersionIn(s, k);
    && version.Some?
    && (forall j: Key | j.0 == k.0 && j != k :: NotAfter(s, j, version.value - 1))
    && (version.value > 0 || exists j: Key :: j.0 == k.0 && j != k && VersionIn(s, j).Some?)
  }

  lemma LeaderGone(s: State, l: Label, k: Key)
    requires Inv(s) && Deletes(s, l, k) && !InRange(s.b, k.0) && LeadsAlone(s, k)
    ensures StorageIn(Step(s, l), k.0) < StorageIn(s, k.0)
  {
    var s' := Step(s, l);
    ReachedByStorage(s, k.0, k);
    if UserVersions(s.b, s'.t.versions, k.0) == {} {
      NothingIsZero(s', k.0);
      if VersionIn(s, k).value <= 0 {
        var j: Key :| j.0 == k.0 && j != k && VersionIn(s, j).Some?;
        DeletedAt(s, l, k, j);
        HasVersion(s', j);
      }
    } else {
      StorageReaches(s', k.0);
      var j :|
        j in s'.t.versions && j.0 == k.0 && VersionIn(s', j).Some? && VersionIn(s', j).value >= StorageIn(s', k.0);
      DeletedAt(s, l, k, j);
      assert j != k ==> NotAfter(s, j, VersionIn(s, k).value - 1);
    }
  }

  lemma FallenLeader(s: State, l: Label, k: Key)
    requires Inv(s) && Deletes(s, l, k) && !InRange(s.b, k.0) && StorageIn(Step(s, l), k.0) < StorageIn(s, k.0)
    ensures LeadsAlone(s, k)
  {
    var s', user := Step(s, l), k.0;
    if UserVersions(s.b, s.t.versions, user) == {} {
      forall j: Key | j.0 == user
        ensures VersionIn(s', j) == VersionIn(s, j)
      {
        DeletedAt(s, l, k, j);
        HasVersion(s, j);
      }
      SameVersionsSameStorage(s, s', user);
    }
    StorageReaches(s, user);
    var lead :|
      && lead in s.t.versions && lead.0 == user
      && VersionIn(s, lead).Some? && VersionIn(s, lead).value >= StorageIn(s, user);
    DeletedAt(s, l, k, lead);
    if VersionIn(s', lead).Some? { ReachedByStorage(s', user, lead); }
    assert lead == k;
    forall j: Key | j.0 == user && j != k
      ensures NotAfter(s, j, VersionIn(s, k).value - 1)
    {
      DeletedAt(s, l, k, j);
      if VersionIn(s', j).Some? { ReachedByStorage(s', user, j); }
    }
    OthersReached(s, l, k);
  }

  lemma OthersReached(s: State, l: Label, k: Key)
    requires Inv(s) && Deletes(s, l, k) && !InRange(s.b, k.0)
    ensures UserVersions(s.b, Step(s, l).t.versions, k.0) != {} ==>
      exists j: Key :: j.0 == k.0 && j != k && VersionIn(s, j).Some?
    ensures UserVersions(s.b, Step(s, l).t.versions, k.0) == {} ==> StorageIn(Step(s, l), k.0) == 0
  {
    var s' := Step(s, l);
    NothingIsZero(s', k.0);
    if UserVersions(s.b, s'.t.versions, k.0) != {} {
      StorageReaches(s', k.0);
      var j :|
        j in s'.t.versions && j.0 == k.0 && VersionIn(s', j).Some? && VersionIn(s', j).value >= StorageIn(s', k.0);
      DeletedAt(s, l, k, j);
    }
  }

  /** When a deletion takes the storage timestamp back, for the users with a tombstone and for those without. */
  ghost predicate FallsWith(s: State, k: Key, ts: int) {
    if InRange(s.b, k.0) then TombstoneLeads(s, k, ts) else LeadsAlone(s, k)
  }

  /**
   * Whatever the order of the timestamps, deleting a collection takes the storage timestamp back
   * exactly if the tombstone of an earlier deletion is the user's latest version and later than
   * the session; or, for MySQL users from 2^31 on, if the collection is the user's latest.
   */
  lemma DeletionStepsBackExactly(s: State, l: Label, k: Key)
    requires Inv(s) && Deletes(s, l, k)
    ensures StorageIn(Step(s, l), k.0) < StorageIn(s, k.0) <==> FallsWith(s, k, s.sessions[l.sid].ts)
  {
    var falls := StorageIn(Step(s, l), k.0) < StorageIn(s, k.0);
    if InRange(s.b, k.0) {
      if TombstoneLeads(s, k, s.sessions[l.sid].ts) { LeadingTombstoneStepsBack(s, l, k); }
      if falls { SteppingBackTombstoneLeads(s, l, k); }
    } else {
      if LeadsAlone(s, k) { LeaderGone(s, l, k); }
      if falls { FallenLeader(s, l, k); }
    }
  }

  /** Every version of the user is still there or has given way to a later one. */
  ghost predicate NoneFalls(s: State, s': State, user: int) {
    forall k: Key | k.0 == user && VersionIn(s, k).Some? ::
      VersionIn(s', k).Some? && VersionIn(s, k).value <= VersionIn(s', k).value
  }

  lemma NoneFallsKeepsStorage(s: State, s': State, user: int)
    requires s'.b == s.b && NoneFalls(s, s', user)
    requires UserVersions(s.b, s.t.versions, user) == {} ==> StorageIn(s', user) >= 0
    ensures StorageIn(s, user) <= StorageIn(s', user)
  {
    NothingIsZero(s, user);
    if UserVersions(s.b, s.t.versions, user) != {} {
      StorageReaches(s, user);
      var k :| k in s.t.versions && k.0 == user && VersionIn(s, k).Some? && VersionIn(s, k).value >= StorageIn(s, user);
      ReachedByStorage(s', user, k);
    }
  }

  lemma TombstoneOfKnown(x: Context, user: int)
    requires Sound(x) && Known(x.b, user) && TombstoneKey(x).0 == user
    ensures KeyOf(x).0 == user
  {}

  /** A commit that is no deletion of one of the user's collections. */
  lemma CommitKeepsVersions(s: State, l: Label, user: int)
    requires Inv(s) && Enabled(s, l) && l.Commit? && Known(s.b, user)
    requires CommitTables(s.t, DoneOf(s.sessions[l.sid]).p).Ok?
    requires var session := s.sessions[l.sid];
      Removed(session.phase.x, DoneOf(session).p) ==> KeyFor(s.b, session.r).0 != user
    ensures NoneFalls(s, Step(s, l), user)
  {
    var x, p := s.sessions[l.sid].phase.x, DoneOf(s.sessions[l.sid]).p;
    forall k: Key | k.0 == user && VersionIn(s, k).Some?
      ensures VersionIn(Step(s, l), k).Some? && VersionIn(s, k).value <= VersionIn(Step(s, l), k).value
    {
      CommittedAt(s, l, k);
      ShapeVersions(x, p);
      if k == TombstoneKey(x) { TombstoneOfKnown(x, user); }
    }
  }

  lemma RemovalIsCarried(s: State, l: Label)
    requires Inv(s) && Enabled(s, l) && l.Commit? && CommitTables(s.t, DoneOf(s.sessions[l.sid]).p).Ok?
    requires Removed(s.sessions[l.sid].phase.x, DoneOf(s.sessions[l.sid]).p)
    ensures Deletes(s, l, KeyFor(s.b, s.sessions[l.sid].r))
  {
    var session := s.sessions[l.sid];
    if !Passed(DoneOf(session)) { NotPassed(session.phase.x, session.phase.env, session.phase.seen, session.r); }
  }

  /** The step deletes one of the user's collections so that the storage timestamp falls. */
  ghost predicate StepsBack(s: State, l: Label, user: int) {
    && l.Commit? && Enabled(s, l)
    && var k := KeyFor(s.b, s.sessions[l.sid].r);
       k.0 == user && Deletes(s, l, k) && FallsWith(s, k, s.sessions[l.sid].ts)
  }

  /**
   * Any step, whatever the order of the timestamps: a user's storage timestamp falls if and only
   * if the step deletes the whole storage, and the timestamp was not zero, or deletes a collection
   * while an earlier tombstone leads, or, for MySQL users from 2^31 on, while the collection does.
   */
  lemma StorageFallsExactly(s: State, l: Label, user: int)
    requires Inv(s) && Enabled(s, l) && Known(s.b, user)
    ensures StorageIn(Step(s, l), user) < StorageIn(s, user)
      <==> (Wiping(s, l, user) && StorageIn(s, user) > 0) || StepsBack(s, l, user)
  {
    if l.Commit? {
      CommitFallsExactly(s, l, user);
    } else if l.Wipe? {
      if Wiping(s, l, user) { WipedToZero(s, l, user); } else { WipedElsewhere(s, l, user); }
    }
  }

  lemma WipedToZero(s: State, l: Label, user: int)
    requires Enabled(s, l) && Wiping(s, l, user)
    ensures StorageIn(Step(s, l), user) == 0
  {}

  lemma CommitFallsExactly(s: State, l: Label, user: int)
    requires Inv(s) && Enabled(s, l) && l.Commit? && Known(s.b, user)
    ensures StorageIn(Step(s, l), user) < StorageIn(s, user) <==> StepsBack(s, l, user)
  {
    var session := s.sessions[l.sid];
    var k := KeyFor(s.b, session.r);
    if CommitTables(s.t, DoneOf(session).p).Ok? {
      if Removed(session.phase.x, DoneOf(session).p) && k.0 == user {
        RemovalIsCarried(s, l);
        DeletionStepsBackExactly(s, l, k);
      } else {
        CommitKeepsVersions(s, l, user);
        if UserVersions(s.b, s.t.versions, user) == {} { StorageNotNegative(s, l, user); }
        NoneFallsKeepsStorage(s, Step(s, l), user);
      }
    }
  }

  // ----- over whole runs -----

  /** The steps that take the timestamp back in spite of an orderly run: for lack of a tombstone of the user's own. */
  ghost predicate Loses(s: State, l: Label, user: int) {
    Wiping(s, l, user) || (!InRange(s.b, user) && StepsBack(s, l, user))
  }

  lemma StepKeepsStorage(s: State, l: Label, user: int)
    requires Inv(s) && UpToLast(s) && Enabled(s, l) && CommitsInOrder(s, l)
    requires !Loses(s, l, user) && Known(s.b, user)
    ensures StorageIn(s, user) <= StorageIn(Step(s, l), user)
  {
    StorageFallsExactly(s, l, user);
    assert l.Commit? && Enabled(s, l) ==> NotAfter(s, TombstoneOf(KeyFor(s.b, s.sessions[l.sid].r)), s.last);
  }

  ghost predicate NeverLoses(run: seq<State>, labels: seq<Label>, user: int, i: nat, j: nat)
    requires |run| == |labels| + 1 && j < |run|
  {
    forall m | i <= m < j :: !Loses(run[m], labels[m], user)
  }

  lemma LostInBetween(run: seq<State>, labels: seq<Label>, user: int, i: nat, j: nat)
    requires |run| == |labels| + 1 && i <= j < |labels|
    ensures NeverLoses(run, labels, user, i, j + 1)
      <==> NeverLoses(run, labels, user, i, j) && !Loses(run[j], labels[j], user)
  {}

  lemma RunStepKeepsStorage(run: seq<State>, labels: seq<Label>, user: int, i: nat)
    requires IsRun(run, labels) && Orderly(run, labels) && i < |labels| && !Loses(run[i], labels[i], user)
    requires Known(run[i].b, user)
    ensures StorageIn(run[i], user) <= StorageIn(run[i + 1], user)
  {
    RunKeepsInv(run, labels, i);
    RunKeepsUpToLast(run, labels, i);
    StepKeepsStorage(run[i], labels[i], user);
  }

  /**
   * In a run whose sessions commit in the order of their timestamps, a user's storage timestamp
   * never decreases between two deletions of the whole storage; for MySQL users from 2^31 on,
   * between two such deletions or deletions of their latest collection.
   */
  lemma {:induction false} StorageNeverGoesBack(run: seq<State>, labels: seq<Label>, user: int, i: nat, j: nat)
    requires IsRun(run, labels) && Orderly(run, labels) && i <= j < |run|
    requires NeverLoses(run, labels, user, i, j) && Known(run[0].b, user)
    ensures StorageIn(run[i], user) <= StorageIn(run[j], user)
    decreases j
  {
    if i < j {
      LostInBetween(run, labels, user, i, j - 1);
      StorageNeverGoesBack(run, labels, user, i, j - 1);
      RunKeepsInv(run, labels, j - 1);
      RunStepKeepsStorage(run, labels, user, j - 1);
    }
  }

  // ----- uploading a batch -----

  /** The step commits a POST that creates a batch or appends to one. */
  predicate Uploads(s: State, l: Label, k: Key) {
    Carried(s, l, k) && s.sessions[l.sid].r.action.PostBatch? && !s.sessions[l.sid].r.action.commit
  }

  lemma QuietCommit(s: State, l: Label, k: Key)
    requires Inv(s) && Uploads(s, l, k)
    ensures Sound(s.sessions[l.sid].phase.x) && Quiet(s.sessions[l.sid].phase.x, DoneOf(s.sessions[l.sid]).p)
  {
    CarriedShape(s, l, k);
  }

  lemma QuietRows(x: Context, p: Pending, rows: Rows)
    requires Sound(x) && Quiet(x, p)
    requires SpannerPost.ApplyAll(OwnerOf(KeyOf(x)), RowsAt(x, p), MutationsOf(x, p)) == Ok(rows)
    ensures rows == x.found.rows && Visible(x.b, VersionAfter(x, p)) == Visible(x.b, x.found.version)
  {}

  lemma NotRemoved(x: Context, p: Pending)
    requires Sound(x) && Quiet(x, p)
    ensures Shape(x, p) && !Removed(x, p)
  {
    assert p.bsos != map[KeyOf(x) := map[]] by { assert KeyOf(x) !in p.bsos; }
  }

  /**
   * Uploading records to a batch, and the parent row it may need, does not show: every
   * collection keeps its rows, its version and what the next lock makes of it, and the storage
   * timestamp stays.
   */
  lemma UploadIsInvisible(s: State, l: Label, k: Key, j: Key, ts: int)
    requires Inv(s) && Uploads(s, l, k)
    ensures CollectionAt(Step(s, l).t, j).rows == CollectionAt(s.t, j).rows
    ensures VersionIn(Step(s, l), j) == VersionIn(s, j)
    ensures Handlers.Lock(s.b, Lookup(Step(s, l).t.versions, j), ts) == Handlers.Lock(s.b, Lookup(s.t.versions, j), ts)
  {
    var session := s.sessions[l.sid];
    assert SessionInv(s.b, s.t, session);
    QuietCommit(s, l, k);
    var x, p := session.phase.x, DoneOf(session).p;
    NotRemoved(x, p);
    if j == k {
      CommitHere(s.t, x, p);
      QuietRows(x, p, CollectionAt(Step(s, l).t, j).rows);
    } else {
      CommitElsewhere(s.t, x, p, j);
    }
  }

  lemma UploadKeepsStorage(s: State, l: Label, k: Key, user: int)
    requires Inv(s) && Uploads(s, l, k)
    ensures StorageIn(Step(s, l), user) == StorageIn(s, user)
  {
    forall j: Key
      ensures VersionIn(Step(s, l), j) == VersionIn(s, j)
    {
      UploadIsInvisible(s, l, k, j, 0);
    }
    SameVersionsSameStorage(s, Step(s, l), user);
  }
}
