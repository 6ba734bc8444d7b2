/** What the requests to delete do and answer: one record, some records, a collection. */
module Deletes {
  import opened Wrappers
  import opened Bso
  import opened Collation
  import opened Store
  import opened Handlers
  import opened Footprint
  import opened Protocol
  import opened Versions
  import opened Backends

  function Deletion(u: U64, c: int, bso: Option<string>, action: Action): Request {
    Request(u, c, bso, Anytime, action)
  }

  /** The session gets its lock: its timestamp is above the collection's version. */
  predicate Lockable(b: Backend, t: Tables, k: Key, ts: int) {
    var version := Visible(b, Lookup(t.versions, k));
    version.Some? ==> version.value < ts
  }

  /** All but one collection is as it was. */
  ghost predicate OthersStay(t: Tables, t': Tables, k: Key) {
    forall j | j != k :: CollectionAt(t', j) == CollectionAt(t, j)
  }

  /** The collection at `ts` without the rows that the ids name, its batches as they were. */
  ghost predicate WithoutNamed(b: Backend, before: Collection, ids: set<string>, ts: int, after: Collection) {
    && after.version == Some(ts) && after.batches == before.batches
    && forall key :: Lookup(after.rows, key) == if Names(b, ids, key) then None else Lookup(before.rows, key)
  }

  /** A stored row that a DELETE of the record takes: on MySQL one that has not expired. */
  predicate Deletable(b: Backend, rows: Rows, id: string, ts: int) {
    exists key | key in rows :: SameText(b, key, id) && (b.Mysql? ==> ts < rows[key].expiry)
  }

  lemma UnexpiredIsFound(b: Backend, rows: Rows, id: string, ts: int)
    requires b.Mysql? ==> Apart(rows.Keys)
    ensures Deletable(b, rows, id, ts)
      <==> RowOf(b, rows, id).Some? && (b.Mysql? ==> ts < RowOf(b, rows, id).value.expiry)
  {
    if Deletable(b, rows, id, ts) {
      var key :| key in rows && SameText(b, key, id) && (b.Mysql? ==> ts < rows[key].expiry);
      if b.Mysql? { FindsUnderAny(rows, key, id); }
    }
    if RowOf(b, rows, id).Some? { assert SameText(b, if b.Mysql? then StoredId(rows, id).value else id, id); }
  }

  /** What the handler of a DELETE of one record makes of a collection that it finds. */
  lemma DelBsoHandled(x: Context, env: Env, id: string)
    requires x.b.Mysql? ==> Apart(x.found.rows.Keys)
    ensures var done := Handle(x, env, NOTHING, DelBso(id));
      if Deletable(x.b, x.found.rows, id, x.ts)
      then done.p == Store.DeleteBsos(x, NOTHING, {id}) && done.r.Ok? && done.r.value.modified == Some(x.ts)
      else done.r == Err(BsoNotFound)
  {
    UnexpiredIsFound(x.b, x.found.rows, id, x.ts);
  }

  lemma DeletionShape(x: Context, ids: set<string>)
    requires Sound(x)
    ensures Shape(x, Store.DeleteBsos(x, NOTHING, ids)) && !Removed(x, Store.DeleteBsos(x, NOTHING, ids))
  {
    assert KeyOf(x) in map[KeyOf(x) := Some(x.ts)];
  }

  lemma DeletedElsewhere(t: Tables, x: Context, ids: set<string>)
    requires Sound(x) && CommitTables(t, Store.DeleteBsos(x, NOTHING, ids)).Ok?
    ensures OthersStay(t, CommitTables(t, Store.DeleteBsos(x, NOTHING, ids)).value, KeyOf(x))
  {
    var p := Store.DeleteBsos(x, NOTHING, ids);
    DeletionShape(x, ids);
    forall j | j != KeyOf(x)
      ensures CollectionAt(CommitTables(t, p).value, j) == CollectionAt(t, j)
    {
      CommitElsewhere(t, x, p, j);
    }
  }

  lemma DeletedHere(t: Tables, x: Context, ids: set<string>)
    requires Sound(x) && x.found == CollectionAt(t, KeyOf(x))
    ensures CommitTables(t, Store.DeleteBsos(x, NOTHING, ids)).Ok?
    ensures WithoutNamed(x.b, x.found, ids, x.ts,
                         CollectionAt(CommitTables(t, Store.DeleteBsos(x, NOTHING, ids)).value, KeyOf(x)))
  {
    var p := Store.DeleteBsos(x, NOTHING, ids);
    DeleteLeaves(t, x, ids, "");
    forall key
      ensures Lookup(After(t, x, p).rows, key) == if Names(x.b, ids, key) then None else Lookup(x.found.rows, key)
    {
      DeleteLeaves(t, x, ids, key);
    }
  }

  /** With its lock given and no precondition, a request does what its handler does. */
  lemma ServedAs(b: Backend, t: Tables, ts: int, env: Env, u: U64, c: int, bso: Option<string>, action: Action)
    requires Lockable(b, t, (StoredUser(b, u), c), ts)
    ensures var (t', r) := Handlers.Served(b, t, ts, env, false, Deletion(u, c, bso, action));
      var done := Handle(ContextOf(b, t, u, c, ts), env, NOTHING, action);
      && (done.r.Err? ==> t' == t && r == Err(done.r.error))
      && (done.r.Ok? && CommitTables(t, done.p).Ok? ==>
            t' == CommitTables(t, done.p).value && r.Ok?
            && r.value == done.r.value.(lastModified := r.value.lastModified))
  {}

  /**
   * DELETE of one record: it succeeds if and only if a stored row is named by the id and, on MySQL,
   * has not expired. Then the rows that the id names are gone, all others and the batches stay, and
   * the version and the answered time are the session's timestamp. Otherwise the record is not found
   * and the tables stay as they are.
   */
  lemma DelBsoExactly(b: Backend, t: Tables, ts: int, env: Env, u: U64, c: int, id: string)
    requires Safe(b, u) && c >= 1 && Lockable(b, t, (StoredUser(b, u), c), ts)
    requires b.Mysql? ==> Apart(CollectionAt(t, (StoredUser(b, u), c)).rows.Keys)
    ensures var (t', r) := Handlers.Served(b, t, ts, env, false, Deletion(u, c, Some(id), DelBso(id)));
      var k := (StoredUser(b, u), c);
      if Deletable(b, CollectionAt(t, k).rows, id, ts)
      then r.Ok? && r.value.modified == Some(ts) && OthersStay(t, t', k)
           && WithoutNamed(b, CollectionAt(t, k), {id}, ts, CollectionAt(t', k))
      else t' == t && r == Err(BsoNotFound)
  {
    var x := ContextOf(b, t, u, c, ts);
    ServedAs(b, t, ts, env, u, c, Some(id), DelBso(id));
    DelBsoHandled(x, env, id);
    DeletedHere(t, x, {id});
    DeletedElsewhere(t, x, {id});
  }

  /** DELETE of some records succeeds whether or not any of them is there, and touches the collection. */
  lemma DelBsosExactly(b: Backend, t: Tables, ts: int, env: Env, u: U64, c: int, ids: set<string>)
    requires Safe(b, u) && c >= 1 && Lockable(b, t, (StoredUser(b, u), c), ts)
    ensures var (t', r) := Handlers.Served(b, t, ts, env, false, Deletion(u, c, None, DelBsos(ids)));
      var k := (StoredUser(b, u), c);
      && r.Ok? && r.value.modified == Some(ts) && OthersStay(t, t', k)
      && WithoutNamed(b, CollectionAt(t, k), ids, ts, CollectionAt(t', k))
  {
    var x := ContextOf(b, t, u, c, ts);
    ServedAs(b, t, ts, env, u, c, None, DelBsos(ids));
    DeletedHere(t, x, ids);
    DeletedElsewhere(t, x, ids);
  }

  // ----- a collection -----

  /** The collection is there: on MySQL a version or any row, on Spanner a version that is not just a batch's parent. */
  predicate IsThere(b: Backend, found: Collection) {
    if b.Mysql? then found.version.Some? || exists id :: id in found.rows
    else found.version.Some? && found.version.value > -62_135_596_800_000
  }

  lemma ThereExactly(x: Context)
    ensures Exists(x, NOTHING) <==> IsThere(x.b, x.found)
  {
    if x.found.rows != map[] { var id :| id in x.found.rows; }
  }

  lemma RemovalShape(x: Context)
    requires Sound(x) && Exists(x, NOTHING)
    ensures Removed(x, Store.DeleteCollection(x, NOTHING)) && Shape(x, Store.DeleteCollection(x, NOTHING))
    ensures Store.DeleteCollection(x, NOTHING).mutations == map[]
  {}

  /** What is left of collection `j`. */
  function AfterRemoval(b: Backend, t: Tables, u: U64, c: int, ts: int, j: Key): Collection {
    var before := CollectionAt(t, j);
    if j == (StoredUser(b, u), c) then Collection(None, map[], if b.Mysql? then before.batches else map[])
    else if j == (TombstoneUser(b, u), 0) then before.(version := Some(ts)) else before
  }

  lemma RemovedAt(t: Tables, x: Context, j: Key)
    requires Sound(x) && Exists(x, NOTHING) && x.found == CollectionAt(t, KeyOf(x))
    ensures var t' := CommitTables(t, Store.DeleteCollection(x, NOTHING));
      t'.Ok? && CollectionAt(t'.value, j) == AfterRemoval(x.b, t, x.u, x.c, x.ts, j)
  {
    var p := Store.DeleteCollection(x, NOTHING);
    RemovalShape(x);
    CommitWithoutMutations(t, p);
    if j == KeyOf(x) { CommitHere(t, x, p); } else { CommitElsewhere(t, x, p, j); }
  }

  lemma DelCollectionHandled(x: Context, env: Env)
    ensures var done := Handle(x, env, NOTHING, DelCollection);
      && done.r.Ok? && done.r.value.status == Success
      && (if IsThere(x.b, x.found) then Exists(x, NOTHING) && done.p == Store.DeleteCollection(x, NOTHING)
          else done.p == NOTHING
               && done.r.value.modified == Some(StorageTimestamp(x.b, x.versions, StoredUser(x.b, x.u))))
  {
    ThereExactly(x);
    assert Overlay(x.versions, map[]) == x.versions;
  }

  /**
   * DELETE of a collection: if it is there, it gives way to a tombstone, MySQL keeping its batches;
   * otherwise the tables stay as they are, and the answer is the latest version of the user.
   */
  lemma DelCollectionExactly(b: Backend, t: Tables, ts: int, env: Env, u: U64, c: int)
    requires Safe(b, u) && c >= 1 && Lockable(b, t, (StoredUser(b, u), c), ts)
    ensures var (t', r) := Handlers.Served(b, t, ts, env, false, Deletion(u, c, None, DelCollection));
      && r.Ok? && r.value.status == Success
      && (if IsThere(b, CollectionAt(t, (StoredUser(b, u), c)))
          then forall j :: CollectionAt(t', j) == AfterRemoval(b, t, u, c, ts, j)
          else t' == t && r.value.modified == Some(StorageTimestamp(b, t.versions, StoredUser(b, u))))
  {
    var x := ContextOf(b, t, u, c, ts);
    ServedAs(b, t, ts, env, u, c, None, DelCollection);
    DelCollectionHandled(x, env);
    CommitNothing(t);
    if IsThere(b, x.found) {
      RemovedAt(t, x, KeyOf(x));
      forall j
        ensures CollectionAt(CommitTables(t, Store.DeleteCollection(x, NOTHING)).value, j)
             == AfterRemoval(b, t, u, c, ts, j)
      {
        RemovedAt(t, x, j);
      }
    }
  }
}
