/** Which tables a request can change, and what a commit of its changes leaves. */
module Footprint {
  import opened Wrappers
  import opened Bso
  import opened Store
  import opened Handlers
  import BatchString
  import SpannerPost
  import Collation

  /** The users whose collections are touched where they are locked. */
  predicate Safe(b: Backend, u: U64) { b.Mysql? ==> u < 0x1_0000_0000 }

  /** `touch_collection` writes the row that `lock_for_write` has locked exactly for users below 2^32. */
  lemma TouchesTheLockedRow(x: Context)
    ensures TouchedKey(x) == KeyOf(x) <==> (x.b.Mysql? ==> x.u < 0x1_0000_0000)
  {}

  /**
   * `erect_tombstone` writes a row of the user whose rows were deleted exactly if the user id fits
   * an i32, or an i64 that is that of an i32 again; for any other user another one gets the row.
   */
  lemma TombstoneIsTheUsers(x: Context)
    ensures TombstoneKey(x).0 == KeyOf(x).0
      <==> (x.b.Mysql? ==> x.u < 0x8000_0000 || x.u >= 0xffff_ffff_8000_0000)
  {}

  /** A session on a collection (0 is the tombstone's) of such a user. */
  predicate Sound(x: Context) { Safe(x.b, x.u) && x.c >= 1 }

  predicate Owns(x: Context, p: Pending) {
    p.bsos.Keys <= {KeyOf(x)} && p.batches.Keys <= {KeyOf(x)} && p.mutations.Keys <= {KeyOf(x)}
  }

  /** No version is touched, though a parent row may have been made. */
  predicate Quiet(x: Context, p: Pending) {
    && Owns(x, p)
    && (p.versions == map[]
        || (x.b.Spanner? && x.found.version.None? && p.versions == map[KeyOf(x) := Some(PRETOUCH_TS)]))
    && p.bsos == map[] && p.mutations == map[]
    && (x.b.Spanner? && KeyOf(x) in p.batches && x.found.version.None? ==> p.versions != map[])
  }

  predicate Touched(x: Context, p: Pending) { Owns(x, p) && p.versions == map[KeyOf(x) := Some(x.ts)] }

  predicate Removed(x: Context, p: Pending) {
    && Owns(x, p)
    && p.versions == map[KeyOf(x) := None, TombstoneKey(x) := Some(x.ts)]
    && p.bsos == map[KeyOf(x) := map[]] && p.mutations == map[]
    && p.batches == if x.b.Mysql? then map[] else map[KeyOf(x) := map[]]
  }

  predicate Shape(x: Context, p: Pending) { Quiet(x, p) || Touched(x, p) || Removed(x, p) }

  /** What a touch makes `Touched`. */
  predicate Touchable(x: Context, p: Pending) {
    && Owns(x, p)
    && (p.versions == map[]
        || p.versions == map[KeyOf(x) := Some(PRETOUCH_TS)]
        || p.versions == map[KeyOf(x) := Some(x.ts)])
  }

  lemma TouchShape(x: Context, p: Pending)
    requires Sound(x) && Touchable(x, p)
    ensures Touched(x, Touch(x, p))
  {}

  lemma PostBsosShape(x: Context, p: Pending, items: seq<Item>, faulty: set<string>,
                      mutations: seq<SpannerPost.Mutation>)
    requires Sound(x) && Touchable(x, p)
    ensures Touched(x, PostBsos(x, p, items, faulty, mutations))
  {
    TouchShape(x, p);
    if x.b.Mysql? {
      PostEachIsPutAll(x, p, items, faulty);
      TouchAgain(x, p, PostEach(x, p, items, faulty));
    }
  }

  lemma TouchAgain(x: Context, p: Pending, q: Pending)
    requires Sound(x) && Touched(x, Touch(x, p)) && WroteOnly(x, p, q, RowsAt(x, q)) && Owns(x, p)
    ensures Touched(x, Touch(x, q)) && Owns(x, q)
  {}

  lemma OpenBatchShape(x: Context, env: Env, batch: Option<int>)
    requires Sound(x)
    ensures Quiet(x, OpenBatch(x, env, NOTHING, batch).p)
  {}

  lemma AppendShape(x: Context, env: Env, p: Pending, id: int, items: seq<Item>)
    requires Sound(x) && Quiet(x, p)
    requires x.b.Spanner? && x.found.version.None? ==> p.versions != map[] || id !in BatchesAt(x, p)
    ensures Quiet(x, AppendCall(x, env, p, id, items).p)
  {}

  lemma StoreItemsShape(x: Context, env: Env, p: Pending, id: int, commit: bool, items: seq<Item>)
    requires Sound(x) && Quiet(x, p)
    requires x.b.Spanner? && x.found.version.None? ==> p.versions != map[] || id !in BatchesAt(x, p)
    ensures var q := StoreItems(x, env, p, id, commit, items).p;
      Quiet(x, q) || (commit && Touched(x, q))
  {
    if commit && |items| > 0 {
      TouchShape(x, p);
      PostBsosShape(x, p, items, env.faulty, env.mutations);
    } else {
      AppendShape(x, env, p, id, items);
    }
  }

  lemma FinishBatchShape(x: Context, env: Env, p: Pending, id: int)
    requires Sound(x) && Touchable(x, p)
    ensures var done := FinishBatch(x, env, p, id);
      done.r.Ok? ==> Touched(x, done.p)
  {
    if ValidBatch(x, p, id, env.getClock) {
      match BatchesAt(x, p)[id].content
      case Text(bsos) =>
        var items := BatchString.BatchStringToBsos(bsos);
        if items.Ok? {
          TouchShape(x, p);
          PostEachIsPutAll(x, p, items.value, env.faulty);
          TouchAgain(x, p, PostEach(x, p, items.value, env.faulty));
        }
      case Children(children) => TouchShape(x, p);
    }
  }

  /** On Spanner a batch has a parent row. */
  predicate Parented(b: Backend, found: Collection) {
    b.Spanner? && (found.rows != map[] || found.batches != map[]) ==> found.version.Some?
  }

  lemma HandleBatchShape(x: Context, env: Env, batch: Option<int>, commit: bool, items: seq<Item>, invalid: set<string>)
    requires Sound(x) && Parented(x.b, x.found)
    ensures var done := HandleBatch(x, env, NOTHING, batch, commit, items, invalid);
      done.r.Ok? ==> if commit then Touched(x, done.p) else Quiet(x, done.p)
  {
    OpenBatchShape(x, env, batch);
    var upload := OpenBatch(x, env, NOTHING, batch);
    if upload.r.Ok? {
      StoreItemsShape(x, env, upload.p, upload.r.value, commit, items);
      var stored := StoreItems(x, env, upload.p, upload.r.value, commit, items);
      FinishBatchShape(x, env, stored.p, upload.r.value);
    }
  }

  /** What the changes of an action look like, action by action. */
  predicate ShapeOf(x: Context, action: Action, p: Pending) {
    match action
    case Read => p == NOTHING
    case PostBatch(_, commit, _, _) => if commit then Touched(x, p) else Quiet(x, p)
    case DelCollection => p == NOTHING || Removed(x, p)
    case _ => Touched(x, p)
  }

  lemma HandleShape(x: Context, env: Env, action: Action)
    requires Sound(x) && Parented(x.b, x.found)
    ensures var done := Handle(x, env, NOTHING, action); done.r.Ok? ==> ShapeOf(x, action, done.p)
  {
    assert Quiet(x, NOTHING);
    match action
    case Read =>
    case Put(item) =>
      TouchShape(x, SetRows(x, NOTHING, Collation.PutCollated(RowsAt(x, NOTHING), x.ts, item)));
      PostBsosShape(x, NOTHING, [item], {}, env.mutations);
    case Post(items, invalid) => PostBsosShape(x, NOTHING, items, env.faulty, env.mutations);
    case PostBatch(batch, commit, items, invalid) => HandleBatchShape(x, env, batch, commit, items, invalid);
    case DelBso(id) =>
    case DelBsos(ids) =>
    case DelCollection =>
  }

  // ----- what a commit leaves -----

  function VersionAfter(x: Context, p: Pending): Option<int> {
    if KeyOf(x) in p.versions then p.versions[KeyOf(x)] else x.found.version
  }

  function MutationsOf(x: Context, p: Pending): seq<SpannerPost.Mutation> {
    if KeyOf(x) in p.mutations then p.mutations[KeyOf(x)] else []
  }

  lemma UnionAt<K, V>(m: map<K, V>, changes: map<K, V>, k: K)
    ensures Lookup(m + changes, k) == if k in changes then Some(changes[k]) else Lookup(m, k)
  {}

  lemma ViewAt(t: Tables, p: Pending, j: Key)
    ensures var v := View(t, p);
      && Lookup(v.versions, j) == (if j in p.versions then p.versions[j] else Lookup(t.versions, j))
      && CollectionAt(v, j).rows == (if j in p.bsos then p.bsos[j] else CollectionAt(t, j).rows)
      && CollectionAt(v, j).batches == (if j in p.batches then p.batches[j] else CollectionAt(t, j).batches)
  {
    OverlayAt(t.versions, p.versions, j);
    UnionAt(t.bsos, p.bsos, j);
    UnionAt(t.batches, p.batches, j);
  }

  lemma CommitAt(t: Tables, p: Pending, j: Key)
    requires CommitTables(t, p).Ok?
    ensures var t', v := CommitTables(t, p).value, View(t, p);
      && CollectionAt(t', j).version == CollectionAt(v, j).version
      && CollectionAt(t', j).batches == CollectionAt(v, j).batches
      && (j !in p.mutations ==> CollectionAt(t', j).rows == CollectionAt(v, j).rows)
      && (j in p.mutations ==> Applied(v, p.mutations, j) == Ok(CollectionAt(t', j).rows))
  {}

  lemma WritesElsewhere(x: Context, p: Pending, j: Key)
    requires Sound(x) && Shape(x, p) && j != KeyOf(x)
    ensures j !in p.bsos && j !in p.batches && j !in p.mutations
    ensures j in p.versions <==> j == TombstoneKey(x) && Removed(x, p)
    ensures j in p.versions ==> p.versions[j] == Some(x.ts)
  {}

  lemma CommitUntouched(t: Tables, p: Pending, j: Key)
    requires CommitTables(t, p).Ok? && j !in p.bsos && j !in p.batches && j !in p.mutations
    ensures CollectionAt(CommitTables(t, p).value, j)
         == CollectionAt(t, j).(version := if j in p.versions then p.versions[j] else CollectionAt(t, j).version)
  {}

  /** Nothing but the collection itself and the version of the user's tombstone changes. */
  lemma CommitElsewhere(t: Tables, x: Context, p: Pending, j: Key)
    requires Sound(x) && Shape(x, p) && CommitTables(t, p).Ok? && j != KeyOf(x)
    ensures var before, after := CollectionAt(t, j), CollectionAt(CommitTables(t, p).value, j);
      after == if j == TombstoneKey(x) && Removed(x, p) then before.(version := Some(x.ts)) else before
  {
    WritesElsewhere(x, p, j);
    CommitUntouched(t, p, j);
  }

  lemma CommitHere(t: Tables, x: Context, p: Pending)
    requires Sound(x) && Shape(x, p) && CommitTables(t, p).Ok? && x.found == CollectionAt(t, KeyOf(x))
    ensures var after := CollectionAt(CommitTables(t, p).value, KeyOf(x));
      && after.version == VersionAfter(x, p)
      && after.batches == BatchesAt(x, p)
      && SpannerPost.ApplyAll(OwnerOf(KeyOf(x)), RowsAt(x, p), MutationsOf(x, p)) == Ok(after.rows)
  {
    ViewAt(t, p, KeyOf(x));
    CommitAt(t, p, KeyOf(x));
  }
}
