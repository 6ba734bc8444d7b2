/**
 * A database session, `MysqlDb` in src/db/mysql/models.rs and `SpannerDb` in
 * src/db/spanner/models.rs, with the fields its methods change.
 */
module Db {
  import opened Wrappers
  import opened Bso
  import opened Store
  import opened Handlers
  import opened BatchString
  import BatchCommit
  import SpannerPost
  import Collation

  datatype CollectionLock = ReadLock | WriteLock

  /** The durable tables that all sessions share. */
  class Database {
    var tables: Tables

    constructor (t: Tables)
      ensures tables == t
    {
      tables := t;
    }
  }

  class Db {
    const b: Backend
    const database: Database
    /** The size of a row on the wire. */
    const rowSize: seq<SpannerPost.Value> -> nat

    var timestamp: Option<int>
    var collModifiedCache: map<Key, int>
    var collLocks: map<Key, CollectionLock>
    var inTransaction: bool
    var inWriteTransaction: bool
    /** Spanner: whether touch_collection has already been called. */
    var touchedCollection: bool
    /** What the statements of the transaction have done, and the buffered mutations. */
    var pending: Pending

    /** A MySQL session has its timestamp from the start, a Spanner session gets it with the write lock. */
    constructor (backend: Backend, db: Database, size: seq<SpannerPost.Value> -> nat, now: int)
      ensures b == backend && database == db && rowSize == size
      ensures Unused() && timestamp == (if backend.Mysql? then Some(now) else None)
    {
      b, database, rowSize := backend, db, size;
      timestamp := if backend.Mysql? then Some(now) else None;
      collModifiedCache, collLocks := map[], map[];
      inTransaction, inWriteTransaction, touchedCollection := false, false, false;
      pending := NOTHING;
    }

    ghost predicate Unused()
      reads this
    {
      && collModifiedCache == map[] && collLocks == map[]
      && !inTransaction && !inWriteTransaction && !touchedCollection && pending == NOTHING
    }

    /** The session at work on a collection; a Spanner session that reads has no timestamp. */
    function At(u: U64, c: int): Context
      reads this, database
    {
      ContextOf(b, database.tables, u, c, if timestamp.Some? then timestamp.value else 0)
    }

    /** The caches go by the user id as a u32 on MySQL. */
    function LockKey(u: U64, c: int): Key { (TouchedUser(b, u), c) }

    predicate ReadLocked(u: U64, c: int)
      reads this
    {
      LockKey(u, c) in collLocks && collLocks[LockKey(u, c)].ReadLock?
    }

    /** `touched_collection` tells the truth: the session works on one collection. */
    ghost predicate Working(u: U64, c: int)
      reads this
    {
      && timestamp.Some?
      && (b.Spanner? && touchedCollection ==>
            LockKey(u, c) in pending.versions && pending.versions[LockKey(u, c)] == Some(timestamp.value))
    }

    // ----- transactions -----

    /** On Spanner a new transaction takes the place of the old one. */
    method Begin(forWrite: bool)
      modifies this`inTransaction, this`inWriteTransaction, this`pending
      ensures inTransaction && inWriteTransaction == (old(inWriteTransaction) || forWrite)
      ensures pending == if b.Mysql? then old(pending) else NOTHING.(mutations := old(pending).mutations)
    {
      if b.Spanner? {
        pending := NOTHING.(mutations := pending.mutations);
      }
      inTransaction := true;
      if forWrite {
        inWriteTransaction := true;
      }
    }

    /** MySQL commits any transaction, Spanner one that writes. */
    method Commit(fails: bool) returns (r: Result<()>)
      modifies this`pending, database
      ensures (database.tables, r) ==
        if (if b.Mysql? then !old(inTransaction) else !old(inWriteTransaction)) then (old(database.tables), Ok(()))
        else if fails then (old(database.tables), Err(Sql))
        else match CommitTables(old(database.tables), old(pending))
             case Ok(t) => (t, Ok(()))
             case Err(e) => (old(database.tables), Err(e))
    {
      if b.Mysql? && !inTransaction { return Ok(()); }
      if b.Spanner? && !inWriteTransaction { return Ok(()); }
      if fails { return Err(Sql); }
      var committed := CommitTables(database.tables, pending);
      pending := NOTHING;
      if committed.Err? { return Err(committed.error); }
      database.tables := committed.value;
      return Ok(());
    }

    method Rollback()
      modifies this`pending
      ensures pending == NOTHING
    {
      pending := NOTHING;
    }

    /** MySQL locks the row in share mode; a lock that is held already is used as it is. */
    method LockForRead(u: U64, c: int) returns (r: Result<()>)
      modifies this
      ensures r == Ok(()) && timestamp == old(timestamp)
      ensures inWriteTransaction == old(inWriteTransaction) && touchedCollection == old(touchedCollection)
      ensures pending == if b.Mysql? then old(pending) else NOTHING.(mutations := old(pending).mutations)
      ensures inTransaction == (old(inTransaction) || b.Spanner? || LockKey(u, c) !in old(collLocks))
      ensures collLocks
           == if LockKey(u, c) in old(collLocks) then old(collLocks) else old(collLocks)[LockKey(u, c) := ReadLock]
      ensures collModifiedCache ==
        match CollectionAt(database.tables, (StoredUser(b, u), c)).version
        case Some(modified) =>
          if b.Mysql? && LockKey(u, c) !in old(collLocks) then old(collModifiedCache)[LockKey(u, c) := modified]
          else old(collModifiedCache)
        case None => old(collModifiedCache)
    {
      if b.Spanner? {
        Begin(false);
      }
      if LockKey(u, c) in collLocks { return Ok(()); }
      if b.Mysql? {
        Begin(false);
        var modified := Lookup(database.tables.versions, (StoredUser(b, u), c));
        if modified.Some? {
          collModifiedCache := collModifiedCache[LockKey(u, c) := modified.value];
        }
      }
      collLocks := collLocks[LockKey(u, c) := ReadLock];
      return Ok(());
    }

    /**
     * MySQL looks for a read lock before it begins, Spanner after; `now` is the clock of the
     * database, from which a Spanner session takes its timestamp.
     */
    method LockForWrite(u: U64, c: int, now: int) returns (r: Result<()>)
      requires pending == NOTHING && !touchedCollection && (b.Mysql? ==> timestamp.Some?)
      modifies this
      ensures old(ReadLocked(u, c)) ==> r == Err(Internal)
      ensures !old(ReadLocked(u, c)) ==> var ts := if b.Mysql? then old(timestamp).value else now;
        match Handlers.Lock(b, CollectionAt(database.tables, (StoredUser(b, u), c)).version, ts)
        case Err(e) => r == Err(e)
        case Ok(seen) =>
          && r == Ok(()) && timestamp == Some(ts) && inTransaction && inWriteTransaction && !touchedCollection
          && pending == NOTHING
          && collLocks == old(collLocks)[LockKey(u, c) := WriteLock]
          && collModifiedCache
             == if seen.Some? then old(collModifiedCache)[LockKey(u, c) := seen.value] else old(collModifiedCache)
    {
      if b.Spanner? {
        Begin(true);
      }
      if ReadLocked(u, c) {
        return Err(Internal);
      }
      if b.Mysql? {
        Begin(true);
      }
      var modified := Visible(b, Lookup(database.tables.versions, (StoredUser(b, u), c)));
      var ts := if b.Mysql? then timestamp.value else now;
      if modified.Some? {
        if modified.value >= ts {
          return Err(Conflict);
        }
        collModifiedCache := collModifiedCache[LockKey(u, c) := modified.value];
      }
      timestamp := Some(ts);
      collLocks := collLocks[LockKey(u, c) := WriteLock];
      return Ok(());
    }

    // ----- reading -----

    method GetCollectionTimestamp(u: U64, c: int) returns (modified: int)
      requires pending == NOTHING
      ensures modified == CollectionTime(At(u, c), Lookup(collModifiedCache, LockKey(u, c)))
    {
      if LockKey(u, c) in collModifiedCache {
        return collModifiedCache[LockKey(u, c)];
      }
      var found := Visible(b, Lookup(database.tables.versions, LockKey(u, c)));
      return if found.Some? then found.value else 0;
    }

    /** The latest of the user's versions, as the session sees them. */
    method GetStorageTimestamp(u: U64) returns (modified: int)
      ensures var versions := UserVersions(b, View(database.tables, pending).versions, StoredUser(b, u));
        if versions == {} then modified == 0 else modified in versions && forall v | v in versions :: v <= modified
    {
      modified := StorageTimestamp(b, View(database.tables, pending).versions, StoredUser(b, u));
    }

    method GetBso(u: U64, c: int, id: string, now: int) returns (bso: Option<Row>)
      requires b.Mysql? ==> timestamp.Some?
      ensures var row := RowOf(b, RowsAt(At(u, c), pending), id);
        bso == if row.None? then None
               else if b.Mysql? then if timestamp.value <= row.value.expiry then row else None
               else if now < row.value.expiry then row else None
      ensures bso == Store.GetBso(At(u, c), pending, id, now)
    {
      var row := RowOf(b, RowsAt(At(u, c), pending), id);
      if row.None? { return None; }
      var shown := if b.Mysql? then row.value.expiry >= timestamp.value else row.value.expiry > now;
      return if shown then row else None;
    }

    // ----- writing -----

    method TouchCollection(u: U64, c: int) returns (modified: int)
      requires Working(u, c)
      modifies this`pending, this`touchedCollection
      ensures Working(u, c) && modified == timestamp.value
      ensures pending == Touch(At(u, c), old(pending))
    {
      modified := timestamp.value;
      if b.Spanner? && touchedCollection {
        assert pending.versions[LockKey(u, c) := Some(modified)] == pending.versions;
        return;
      }
      pending := SetVersion(pending, LockKey(u, c), Some(modified));
      touchedCollection := b.Spanner?;
    }

    method EraseRows(u: U64, c: int, ids: set<string>)
      requires Working(u, c)
      modifies this`pending
      ensures Working(u, c)
      ensures pending == SetRows(At(u, c), old(pending), RemoveRows(b, RowsAt(At(u, c), old(pending)), ids))
    {
      var x := At(u, c);
      pending := SetRows(x, pending, RemoveRows(b, RowsAt(x, pending), ids));
    }

    /** MySQL's upsert of one record, in a nested transaction that a failing statement undoes. */
    method PutBso(u: U64, c: int, item: Item, faulty: set<string>) returns (r: Result<()>)
      requires b.Mysql? && Working(u, c)
      modifies this`pending, this`touchedCollection
      ensures Working(u, c) && r == (if item.id in faulty then Err(Sql) else Ok(()))
      ensures pending == if item.id in faulty then old(pending) else PutOne(At(u, c), old(pending), item)
    {
      if item.id in faulty { return Err(Sql); }
      var x := At(u, c);
      pending := SetRows(x, pending, Collation.PutCollated(RowsAt(x, pending), x.ts, item));
      var _ := TouchCollection(u, c);
      return Ok(());
    }

    /** The loop of MySQL's `post_bsos_sync`. */
    method PostEachBso(u: U64, c: int, items: seq<Item>, faulty: set<string>)
        returns (success: seq<string>, failed: set<string>)
      requires b.Mysql? && Working(u, c)
      modifies this`pending, this`touchedCollection
      ensures Working(u, c) && pending == PostEach(At(u, c), old(pending), items, faulty)
      ensures success == IdList(Without(items, faulty)) && failed == Ids(items) * faulty
    {
      success, failed := [], {};
      var i := 0;
      while i < |items|
        invariant i <= |items| && Working(u, c)
        invariant pending == PostEach(At(u, c), old(pending), items[..i], faulty)
        invariant success == IdList(Without(items[..i], faulty)) && failed == Ids(items[..i]) * faulty
      {
        OneMore(At(u, c), old(pending), items, i, faulty);
        var r := PutBso(u, c, items[i], faulty);
        if r.Ok? {
          success := success + [items[i].id];
        } else {
          failed := failed + {items[i].id};
        }
        i := i + 1;
      }
      assert items[..i] == items;
    }

    /**
     * `post_bsos`. On MySQL records whose statement fails are left out; on Spanner the records
     * become mutations that represent them.
     */
    method PostBsos(u: U64, c: int, items: seq<Item>, env: Env) returns (r: Result<Posted>, ghost env': Env)
      requires Working(u, c) && (b.Spanner? ==> DistinctIds(items))
      modifies this`pending, this`touchedCollection
      ensures Working(u, c) && env' == env.(mutations := env'.mutations, fault := env'.fault)
      ensures env.fault.Some? || b.Mysql? ==> env'.fault == env.fault
      ensures Done.Done(pending, r) == PostCall(At(u, c), env', old(pending), items)
      ensures Represented(At(u, c), env', RowsAt(At(u, c), old(pending)), items)
    {
      env' := env;
      if b.Mysql? {
        if env.fault.Some? { return Err(env.fault.value), env; }
        var success, failed := PostEachBso(u, c, items, env.faulty);
        var _ := TouchCollection(u, c);
        return Ok(Posted(success, failed)), env;
      }
      var _ := TouchCollection(u, c);
      if env.fault.Some? { return Err(env.fault.value), env; }
      var x := At(u, c);
      var mutations := SpannerPost.PostBsos(OwnerOf(KeyOf(x)), RowsAt(x, pending), items, x.ts, rowSize);
      if mutations.Err? {
        return Err(mutations.error), env.(fault := Some(mutations.error));
      }
      pending := AddMutations(x, pending, mutations.value);
      return Ok(Posted(IdList(items), {})), env.(mutations := mutations.value);
    }

    method DeleteBsos(u: U64, c: int, ids: set<string>) returns (modified: int)
      requires Working(u, c)
      modifies this`pending, this`touchedCollection
      ensures Working(u, c) && modified == timestamp.value
      ensures pending == Store.DeleteBsos(At(u, c), old(pending), ids)
    {
      EraseRows(u, c, ids);
      modified := TouchCollection(u, c);
    }

    /** Spanner touches before it looks. */
    method DeleteBso(u: U64, c: int, id: string) returns (r: Result<int>)
      requires Working(u, c)
      modifies this`pending, this`touchedCollection
      ensures Working(u, c)
      ensures match Store.DeleteBso(At(u, c), old(pending), id)
        case Ok(p) => pending == p && r == Ok(timestamp.value)
        case Err(e) => r == Err(e) && pending == if b.Mysql? then old(pending) else Touch(At(u, c), old(pending))
    {
      var x := At(u, c);
      var modified := timestamp.value;
      if b.Spanner? {
        modified := TouchCollection(u, c);
      }
      var row := RowOf(b, RowsAt(x, pending), id);
      if row.None? || (b.Mysql? && row.value.expiry <= modified) {
        return Err(BsoNotFound);
      }
      EraseRows(u, c, {id});
      if b.Mysql? {
        modified := TouchCollection(u, c);
      }
      return Ok(modified);
    }

    method EraseCollection(u: U64, c: int)
      requires timestamp.Some?
      modifies this`pending
      ensures pending ==
        (var rowless := SetVersion(SetRows(At(u, c), old(pending), map[]), KeyOf(At(u, c)), None);
         if b.Mysql? then rowless else SetBatches(At(u, c), rowless, map[]))
    {
      var x := At(u, c);
      pending := SetRows(x, pending, map[]);
      pending := SetVersion(pending, KeyOf(x), None);
      if b.Spanner? {
        pending := SetBatches(x, pending, map[]);
      }
    }

    method RaiseTombstone(u: U64, c: int)
      requires timestamp.Some?
      modifies this`pending
      ensures pending == ErectTombstone(At(u, c), old(pending))
    {
      pending := SetVersion(pending, (TombstoneUser(b, u), TOMBSTONE), None);
      pending := SetVersion(pending, (TombstoneUser(b, u), TOMBSTONE), Some(timestamp.value));
      SetTwice(old(pending).versions, (TombstoneUser(b, u), TOMBSTONE), None, Some(timestamp.value));
    }

    /** MySQL counts the rows of both tables, Spanner those of visible parents. */
    method DeleteCollection(u: U64, c: int) returns (r: Result<int>)
      requires timestamp.Some?
      modifies this`pending
      ensures var x, p := At(u, c), old(pending);
        if Exists(x, p)
        then pending == Store.DeleteCollection(x, p) && r == Ok(if b.Mysql? then StorageTime(x, pending) else x.ts)
        else pending == p && r == if b.Mysql? then Err(CollectionNotFound) else Ok(StorageTime(x, p))
    {
      var x := At(u, c);
      var found := if b.Mysql? then RowsAt(x, pending) != map[] || VersionAt(x, pending).Some?
                   else Visible(b, VersionAt(x, pending)).Some?;
      if !found && b.Mysql? { return Err(CollectionNotFound); }
      if found {
        EraseCollection(u, c);
        RaiseTombstone(u, c);
        if b.Spanner? { return Ok(timestamp.value); }
      }
      var modified := GetStorageTimestamp(u);
      IsStorageTimestamp(b, View(database.tables, pending).versions, StoredUser(b, u), modified);
      return Ok(modified);
    }

    method DeleteStorage(u: U64)
      requires pending == NOTHING
      modifies this`pending
      ensures pending == Store.DeleteStorage(b, database.tables, u)
    {
      var user := StoredUser(b, u);
      var t := database.tables;
      pending := pending.(bsos := map k | k in t.bsos && k.0 == user :: map[]);
      pending := pending.(versions := map k | k in t.versions && k.0 == user :: None);
      if b.Spanner? {
        pending := pending.(batches := map k | k in t.batches && k.0 == user :: map[]);
      }
    }

    // ----- batches -----

    method CreateBatch(u: U64, c: int, uuid: int) returns (r: Result<int>)
      requires Working(u, c)
      modifies this`pending
      ensures match Store.CreateBatch(At(u, c), old(pending), uuid)
        case Ok(p) => pending == p && r == Ok(NewId(At(u, c), uuid))
        case Err(e) => pending == old(pending) && r == Err(e)
    {
      var x := At(u, c);
      var batches := BatchesAt(x, pending);
      var id := if b.Mysql? then timestamp.value else uuid;
      if id in batches { return Err(if b.Mysql? then Conflict else Sql); }
      if b.Spanner? && VersionAt(x, pending).None? {
        pending := SetVersion(pending, KeyOf(x), Some(PRETOUCH_TS));
      }
      var content := if b.Mysql? then Content.Text(BsosToBatchString([])) else Children(map[]);
      pending := SetBatches(x, pending, batches[id := Batch(content, timestamp.value + BATCH_LIFETIME)]);
      return Ok(id);
    }

    method ValidateBatch(u: U64, c: int, id: int, now: int) returns (valid: bool)
      requires timestamp.Some?
      ensures valid == ValidBatch(At(u, c), pending, id, now)
    {
      var batches := BatchesAt(At(u, c), pending);
      valid := id in batches && batches[id].expiry > (if b.Mysql? then timestamp.value else now);
    }

    /** Spanner's INSERT of the child rows: all or none. */
    method InsertChildren(children: BatchCommit.Children, items: seq<Item>) returns (r: Result<BatchCommit.Children>)
      ensures r == AddChildren(children, items)
    {
      var rows := children;
      var i := 0;
      while i < |items|
        invariant i <= |items| && AddChildren(children, items[..i]) == Ok(rows)
      {
        assert items[..i + 1][..i] == items[..i];
        if items[i].id in rows {
          AddChildrenFails(children, items, i);
          return Err(Sql);
        }
        rows := rows[items[i].id := items[i]];
        i := i + 1;
      }
      assert items[..i] == items;
      return Ok(rows);
    }

    method AppendToBatch(u: U64, c: int, id: int, items: seq<Item>, now: int) returns (r: Result<()>)
      requires Working(u, c)
      modifies this`pending
      ensures match Store.AppendToBatch(At(u, c), old(pending), id, items, now)
        case Ok(p) => pending == p && r == Ok(())
        case Err(e) => pending == old(pending) && r == Err(e)
    {
      var valid := ValidateBatch(u, c, id, now);
      if !valid { return Err(BatchNotFound); }
      var x := At(u, c);
      var batches := BatchesAt(x, pending);
      var batch := batches[id];
      match batch.content {
        case Text(bsos) =>
          pending := SetBatches(x, pending,
                                batches[id := batch.(content := Content.Text(bsos + BsosToBatchString(items)))]);
        case Children(children) =>
          var rows := InsertChildren(children, items);
          if rows.Err? { return Err(rows.error); }
          pending := SetBatches(x, pending, batches[id := batch.(content := Children(rows.value))]);
      }
      return Ok(());
    }

    method DeleteBatch(u: U64, c: int, id: int)
      requires timestamp.Some?
      modifies this`pending
      ensures pending == Store.DeleteBatch(At(u, c), old(pending), id)
    {
      var x := At(u, c);
      pending := SetBatches(x, pending, BatchesAt(x, pending) - {id});
    }

    /** A batch that has been found: MySQL posts its records, Spanner updates and inserts from its child rows. */
    method CommitBatch(u: U64, c: int, id: int, faulty: set<string>) returns (r: Result<()>)
      requires Working(u, c) && id in BatchesAt(At(u, c), pending)
      requires BatchesAt(At(u, c), pending)[id].content.Text? ==> b.Mysql?
      modifies this`pending, this`touchedCollection
      ensures match Store.CommitBatch(At(u, c), old(pending), id, faulty)
        case Ok(p) => pending == p && r == Ok(())
        case Err(e) => pending == old(pending) && r == Err(e)
    {
      var x := At(u, c);
      match BatchesAt(x, pending)[id].content
      case Text(bsos) =>
        var items := BatchStringToBsos(bsos);
        if items.Err? { return Err(items.error); }
        var _, _ := PostEachBso(u, c, items.value, faulty);
        var _ := TouchCollection(u, c);
        DeleteBatch(u, c, id);
        return Ok(());
      case Children(children) =>
        var modified := TouchCollection(u, c);
        pending := SetRows(x, pending, BatchCommit.CommitUpdate(RowsAt(x, pending), modified, children));
        pending := SetRows(x, pending, BatchCommit.CommitInsert(RowsAt(x, pending), modified, children));
        SetTwice(old(pending).bsos, KeyOf(x), BatchCommit.CommitUpdate(RowsAt(x, old(pending)), modified, children),
                 BatchCommit.Commit(RowsAt(x, old(pending)), modified, children));
        DeleteBatch(u, c, id);
        return Ok(());
    }
  }

  /** One more turn of the loop of `post_bsos_sync`. */
  lemma OneMore(x: Context, p: Pending, items: seq<Item>, i: nat, faulty: set<string>)
    requires i < |items|
    ensures PostEach(x, p, items[..i + 1], faulty)
         == if items[i].id in faulty then PostEach(x, p, items[..i], faulty)
           else PutOne(x, PostEach(x, p, items[..i], faulty), items[i])
    ensures IdList(Without(items[..i + 1], faulty))
         == IdList(Without(items[..i], faulty)) + if items[i].id in faulty then [] else [items[i].id]
    ensures Ids(items[..i + 1]) * faulty
         == Ids(items[..i]) * faulty + if items[i].id in faulty then {items[i].id} else {}
  {
    assert items[..i + 1][..i] == items[..i];
    IdsLast(items[..i + 1]);
  }

  /** A record that is there already fails the whole insert. */
  lemma {:induction false} AddChildrenFails(children: BatchCommit.Children, items: seq<Item>, i: nat)
    requires i < |items| && AddChildren(children, items[..i]).Ok?
    requires items[i].id in AddChildren(children, items[..i]).value
    ensures AddChildren(children, items) == Err(Sql)
  {
    var n := |items| - 1;
    if i < n {
      assert items[..n][..i] == items[..i];
      AddChildrenFails(children, items[..n], i);
    }
  }
}
