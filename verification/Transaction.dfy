/**
 * The driver of a request, `transaction_http` in src/db/transaction.rs with the handlers of
 * src/web/handlers.rs as its actions, step by step on a database session.
 */
module Transaction {
  import opened Wrappers
  import opened Bso
  import opened Store
  import opened Handlers
  import opened Db
  import Footprint
  import Versions

  // ----- the handlers -----

  /** `post_collection_batch` up to the call that stores the records. */
  method OpenUpload(db: Db, u: U64, c: int, batch: Option<int>, env: Env) returns (r: Result<int>)
    requires db.Working(u, c)
    modifies db`pending
    ensures db.Working(u, c)
    ensures Done.Done(db.pending, r) == OpenBatch(db.At(u, c), env, old(db.pending), batch)
  {
    match batch {
      case Some(id) =>
        var valid := db.ValidateBatch(u, c, id, env.validateClock);
        return if valid then Ok(id) else Err(BatchNotFound);
      case None =>
        r := db.CreateBatch(u, c, env.uuid);
    }
  }

  /** .. the call itself: the records of the last POST are posted, others appended. */
  method StoreUpload(db: Db, u: U64, c: int, id: int, commit: bool, items: seq<Item>, env: Env)
      returns (r: Result<()>, ghost env': Env)
    requires db.Working(u, c) && DistinctIds(items)
    modifies db`pending, db`touchedCollection
    ensures db.Working(u, c) && env' == env.(mutations := env'.mutations, fault := env'.fault)
    ensures Done.Done(db.pending, r) == StoreItems(db.At(u, c), env', old(db.pending), id, commit, items)
    ensures commit && |items| > 0 ==> Represented(db.At(u, c), env', RowsAt(db.At(u, c), old(db.pending)), items)
  {
    if commit && |items| > 0 {
      var posted;
      posted, env' := db.PostBsos(u, c, items, env);
      r := if posted.Err? then Err(posted.error) else Ok(());
    } else {
      env' := env;
      if env.fault.Some? { return Err(env.fault.value), env; }
      r := db.AppendToBatch(u, c, id, items, env.appendClock);
    }
  }

  /** .. and the commit. */
  method FinishUpload(db: Db, u: U64, c: int, id: int, env: Env, ghost env': Env) returns (r: Result<()>)
    requires db.Working(u, c) && env' == env.(mutations := env'.mutations, fault := env'.fault)
    requires var batches := BatchesAt(db.At(u, c), db.pending);
      id in batches && batches[id].content.Text? ==> db.b.Mysql?
    modifies db`pending, db`touchedCollection
    ensures db.Working(u, c)
    ensures Done.Done(db.pending, r) == FinishBatch(db.At(u, c), env', old(db.pending), id)
  {
    var found := db.ValidateBatch(u, c, id, env.getClock);
    if !found { return Err(BatchNotFound); }
    r := db.CommitBatch(u, c, id, env.faulty);
  }

  /** Only MySQL keeps a batch as a text. */
  predicate Fits(b: Backend, batches: Batches) { forall id | id in batches :: batches[id].content.Text? ==> b.Mysql? }

  lemma UploadFits(x: Context, env: Env, batch: Option<int>, commit: bool, items: seq<Item>)
    requires Fits(x.b, x.found.batches)
    ensures var upload := OpenBatch(x, env, NOTHING, batch);
      Fits(x.b, BatchesAt(x, upload.p)) &&
      (upload.r.Ok? ==> Fits(x.b, BatchesAt(x, StoreItems(x, env, upload.p, upload.r.value, commit, items).p)))
  {}

  lemma OpenBatchRows(x: Context, env: Env, batch: Option<int>)
    ensures RowsAt(x, OpenBatch(x, env, NOTHING, batch).p) == x.found.rows
  {}

  /** The batch, and whether the records have been stored. */
  method Upload(db: Db, u: U64, c: int, batch: Option<int>, commit: bool, items: seq<Item>, env: Env)
      returns (id: Result<int>, stored: Result<()>, ghost env': Env)
    requires db.Working(u, c) && db.pending == NOTHING && DistinctIds(items)
    requires Fits(db.b, db.At(u, c).found.batches)
    modifies db`pending, db`touchedCollection
    ensures db.Working(u, c) && env' == env.(mutations := env'.mutations, fault := env'.fault)
    ensures Fits(db.b, BatchesAt(db.At(u, c), db.pending))
    ensures var upload := OpenBatch(db.At(u, c), env', NOTHING, batch);
      && id == upload.r
      && (if upload.r.Err? then db.pending == upload.p
          else Done.Done(db.pending, stored) == StoreItems(db.At(u, c), env', upload.p, upload.r.value, commit, items))
    ensures id.Ok? ==> Genuine(db.At(u, c), env', PostBatch(batch, commit, items, {}))
  {
    env', stored := env, Ok(());
    ghost var x := db.At(u, c);
    UploadFits(x, env, batch, commit, items);
    id := OpenUpload(db, u, c, batch, env);
    if id.Ok? {
      OpenBatchRows(x, env, batch);
      stored, env' := StoreUpload(db, u, c, id.value, commit, items, env);
      UploadFits(x, env', batch, commit, items);
    }
  }

  method PostCollectionBatch(db: Db, u: U64, c: int, batch: Option<int>, commit: bool, items: seq<Item>,
                             invalid: set<string>, env: Env)
      returns (r: Result<Reply>, ghost env': Env)
    requires db.Working(u, c) && db.pending == NOTHING && DistinctIds(items)
    requires Fits(db.b, db.At(u, c).found.batches)
    modifies db`pending, db`touchedCollection
    ensures env' == env.(mutations := env'.mutations, fault := env'.fault)
    ensures Done.Done(db.pending, r) == HandleBatch(db.At(u, c), env', NOTHING, batch, commit, items, invalid)
    ensures r.Ok? ==> Genuine(db.At(u, c), env', PostBatch(batch, commit, items, invalid))
  {
    var id, stored;
    id, stored, env' := Upload(db, u, c, batch, commit, items, env);
    if id.Err? { return Err(id.error), env'; }
    if stored == Err(Conflict) { return Err(Conflict), env'; }
    var reply := UploadReply(db, u, c, commit, stored, id.value, items, invalid);
    if !commit { return Ok(reply), env'; }
    var finished := FinishUpload(db, u, c, id.value, env, env');
    r := if finished.Err? then Err(finished.error) else Ok(reply);
  }

  /** The lists of ids, and the batch's id or the time of the commit. */
  method UploadReply(db: Db, u: U64, c: int, commit: bool, stored: Result<()>, id: int, items: seq<Item>,
                     invalid: set<string>)
      returns (reply: Reply)
    requires db.timestamp.Some?
    ensures reply == BatchReply(db.At(u, c), commit, stored, id, items, invalid)
  {
    var success, failed := [], invalid;
    if stored.Ok? {
      success := IdList(items);
    } else {
      failed := failed + Ids(items);
    }
    if !commit { return Reply(Accepted, None, None, success, failed, Some(id)); }
    var modified := Some(db.timestamp.value);
    return Reply(Success, modified, modified, success, failed, None);
  }

  /** DELETE of a collection: that there is none is not an error. */
  method DeleteCollection(db: Db, u: U64, c: int) returns (reply: Reply)
    requires db.timestamp.Some? && db.pending == NOTHING
    modifies db`pending
    ensures Done.Done(db.pending, Ok(reply)) == HandleDelete(db.At(u, c), NOTHING)
  {
    var r := db.DeleteCollection(u, c);
    match r {
      case Ok(modified) => reply := Plain(None, Some(modified));
      case Err(_) =>
        var modified := db.GetStorageTimestamp(u);
        IsStorageTimestamp(db.b, View(db.database.tables, db.pending).versions, StoredUser(db.b, u), modified);
        reply := Plain(None, Some(modified));
    }
  }

  /** The handler of the request. */
  method Act(db: Db, u: U64, c: int, action: Action, env: Env) returns (r: Result<Reply>, ghost env': Env)
    requires db.Working(u, c) && db.pending == NOTHING && Acceptable(action)
    requires Fits(db.b, db.At(u, c).found.batches)
    modifies db`pending, db`touchedCollection
    ensures env' == env.(mutations := env'.mutations, fault := env'.fault)
    ensures Done.Done(db.pending, r) == Handle(db.At(u, c), env', NOTHING, action)
    ensures r.Ok? ==> Genuine(db.At(u, c), env', action)
  {
    env' := env;
    var modified := db.timestamp.value;
    match action {
      case Read => r := Ok(Plain(None, None));
      case Put(item) => r, env' := PutRecord(db, u, c, item, env);
      case Post(items, invalid) => r, env' := PostCollection(db, u, c, items, invalid, env);
      case PostBatch(batch, commit, items, invalid) =>
        r, env' := PostCollectionBatch(db, u, c, batch, commit, items, invalid, env);
      case DelBso(id) =>
        var deleted := db.DeleteBso(u, c, id);
        r := if deleted.Err? then Err(deleted.error) else Ok(Plain(None, Some(deleted.value)));
      case DelBsos(ids) =>
        modified := db.DeleteBsos(u, c, ids);
        r := Ok(Plain(Some(modified), Some(modified)));
      case DelCollection =>
        var reply := DeleteCollection(db, u, c);
        r := Ok(reply);
    }
  }

  method PostCollection(db: Db, u: U64, c: int, items: seq<Item>, invalid: set<string>, env: Env)
      returns (r: Result<Reply>, ghost env': Env)
    requires db.Working(u, c) && DistinctIds(items)
    modifies db`pending, db`touchedCollection
    ensures env' == env.(mutations := env'.mutations, fault := env'.fault)
    ensures Done.Done(db.pending, r) == HandlePost(db.At(u, c), env', old(db.pending), items, invalid)
    ensures Represented(db.At(u, c), env', RowsAt(db.At(u, c), old(db.pending)), items)
  {
    var posted;
    posted, env' := db.PostBsos(u, c, items, env);
    if posted.Err? { return Err(posted.error), env'; }
    var modified := Some(db.timestamp.value);
    return Ok(Reply(Success, modified, modified, posted.value.success, invalid + posted.value.failed, None)), env';
  }

  method PutRecord(db: Db, u: U64, c: int, item: Item, env: Env) returns (r: Result<Reply>, ghost env': Env)
    requires db.Working(u, c)
    modifies db`pending, db`touchedCollection
    ensures env' == env.(mutations := env'.mutations, fault := env'.fault)
    ensures var modified := Some(db.timestamp.value);
      Done.Done(db.pending, r) == Answer(PutCall(db.At(u, c), env', old(db.pending), item), Plain(modified, modified))
    ensures Represented(db.At(u, c), env', RowsAt(db.At(u, c), old(db.pending)), [item])
  {
    env' := env;
    var modified := Some(db.timestamp.value);
    if db.b.Mysql? {
      if env.fault.Some? { return Err(env.fault.value), env; }
      var put := db.PutBso(u, c, item, env.faulty);
      return if put.Err? then Err(put.error) else Ok(Plain(modified, modified)), env;
    }
    var posted;
    posted, env' := db.PostBsos(u, c, [item], env);
    r := if posted.Err? then Err(posted.error) else Ok(Plain(modified, modified));
  }

  // ----- the precondition -----

  /** The timestamp a precondition is about; without a collection it is that of the whole storage. */
  method ExtractResource(db: Db, u: U64, collection: Option<int>, bso: Option<string>, env: Env) returns (resource: int)
    requires db.pending == NOTHING
    ensures resource == match collection
      case None => StorageTimestamp(db.b, db.database.tables.versions, StoredUser(db.b, u))
      case Some(c) => ResourceTime(db.At(u, c), env, Lookup(db.collModifiedCache, db.LockKey(u, c)), bso)
  {
    match collection {
      case None =>
        resource := db.GetStorageTimestamp(u);
        NothingPending(db.database.tables);
        IsStorageTimestamp(db.b, db.database.tables.versions, StoredUser(db.b, u), resource);
      case Some(c) =>
        match bso {
          case Some(id) => resource := BsoTime(db.At(u, c), id, env.checkClock);
          case None => resource := db.GetCollectionTimestamp(u, c);
        }
    }
  }

  lemma NothingPending(t: Tables)
    ensures View(t, NOTHING) == t
  {}

  /** The closure `check_precondition`: a failed precondition answers without the action. */
  method CheckPrecondition(db: Db, r: Request, env: Env) returns (reply: Result<Reply>, ghost env': Env)
    requires db.Working(r.u, r.c) && db.pending == NOTHING && Acceptable(r.action)
    requires Fits(db.b, db.At(r.u, r.c).found.batches)
    modifies db`pending, db`touchedCollection
    ensures env' == env.(mutations := env'.mutations, fault := env'.fault)
    ensures var cached := Lookup(db.collModifiedCache, db.LockKey(r.u, r.c));
      Done.Done(db.pending, reply) == CheckThenAct(db.At(r.u, r.c), env', cached, r)
    ensures reply.Ok? && reply.value.status in {Success, Accepted} ==> Genuine(db.At(r.u, r.c), env', r.action)
  {
    var resource := ExtractResource(db, r.u, Some(r.c), r.bso, env);
    var status := match r.precondition
      case IfModifiedSince(header) => if resource <= header then NotModified else Success
      case IfUnmodifiedSince(header) => if resource > header then PreconditionFailed else Success
      case Anytime => Success;
    if status != Success {
      return Ok(Reply(status, Some(resource), None, [], {}, None)), env;
    }
    reply, env' := Act(db, r.u, r.c, r.action, env);
    if reply.Ok? && reply.value.lastModified.None? {
      reply := Ok(reply.value.(lastModified := Some(resource)));
    }
  }

  // ----- the transaction -----

  /**
   * A writing request from its lock to the end of its transaction. On every path the durable
   * tables are those of the request served as a whole: a lock that is refused and an action that
   * fails roll back, any answer is committed, and a commit that fails leaves nothing.
   */
  method TransactionHttp(db: Db, r: Request, now: int, env: Env, commitFails: bool)
      returns (reply: Result<Reply>, ghost env': Env)
    requires db.Unused() && (db.b.Mysql? ==> db.timestamp.Some?) && Acceptable(r.action)
    requires Fits(db.b, CollectionAt(db.database.tables, (StoredUser(db.b, r.u), r.c)).batches)
    modifies db, db.database
    ensures env' == env.(mutations := env'.mutations, fault := env'.fault)
    ensures var ts := if db.b.Mysql? then old(db.timestamp).value else now;
      && (db.database.tables, reply) == Served(db.b, old(db.database.tables), ts, env', commitFails, r)
      && (reply.Ok? && reply.value.status in {Success, Accepted} ==>
            Genuine(ContextOf(db.b, old(db.database.tables), r.u, r.c, ts), env', r.action))
  {
    var lock := db.LockForWrite(r.u, r.c, now);
    if lock.Err? {
      db.Rollback();
      return Err(lock.error), env;
    }
    reply, env' := CheckPrecondition(db, r, env);
    if reply.Err? {
      db.Rollback();
      return;
    }
    var committed := db.Commit(commitFails);
    if committed.Err? { reply := Err(committed.error); }
  }

  /** The version that a read lock has cached. */
  function CachedByRead(b: Backend, t: Tables, u: U64, c: int): Option<int> {
    if b.Mysql? then CollectionAt(t, (StoredUser(b, u), c)).version else None
  }

  lemma ReadsLockedVersion(b: Backend, t: Tables, u: U64, c: int, ts: int, env: Env)
    requires Footprint.Safe(b, u)
    ensures var version := Visible(b, CollectionAt(t, (StoredUser(b, u), c)).version);
      ResourceTime(ContextOf(b, t, u, c, ts), env, CachedByRead(b, t, u, c), None)
         == if version.Some? then version.value else 0
  {}

  /**
   * A reading request: it changes nothing, and answers with the time of what it reads, for a
   * collection the version that it has locked, for a record its own; it is 304 exactly if what it
   * reads is not newer than X-If-Modified-Since, and 412 exactly if newer than X-If-Unmodified-Since.
   */
  method TransactionRead(db: Db, r: Request, env: Env, commitFails: bool) returns (reply: Result<Reply>)
    requires db.Unused() && r.action.Read?
    modifies db, db.database
    ensures db.database.tables == old(db.database.tables)
    ensures reply.Err? <==> commitFails && db.b.Mysql?
    ensures var t := old(db.database.tables);
      var resource := ResourceTime(ContextOf(db.b, t, r.u, r.c, 0), env, CachedByRead(db.b, t, r.u, r.c), r.bso);
      reply.Ok? ==> reply.value.lastModified == Some(resource) && reply.value.status == Check(r.precondition, resource)
    ensures reply.Ok? && Footprint.Safe(db.b, r.u) ==>
      var found := CollectionAt(old(db.database.tables), (StoredUser(db.b, r.u), r.c));
      var version := Visible(db.b, found.version);
      var row := if r.bso.Some? then RowOf(db.b, found.rows, r.bso.value) else None;
      var time := if r.bso.None? then if version.Some? then version.value else 0
                  else if row.Some? && (db.b.Spanner? ==> env.checkClock < row.value.expiry) then row.value.modified
                  else 0;
      && reply.value.lastModified == Some(time)
      && match r.precondition
         case IfModifiedSince(header) => reply.value.status == if header < time then Success else NotModified
         case IfUnmodifiedSince(header) => reply.value.status == if time <= header then Success else PreconditionFailed
         case Anytime => reply.value.status == Success
  {
    var _ := db.LockForRead(r.u, r.c);
    var resource := ExtractResource(db, r.u, Some(r.c), r.bso, env);
    if Footprint.Safe(db.b, r.u) && r.bso.None? {
      ReadsLockedVersion(db.b, db.database.tables, r.u, r.c, db.At(r.u, r.c).ts, env);
    }
    reply := Ok(Reply(Check(r.precondition, resource), Some(resource), None, [], {}, None));
    Versions.CommitNothing(db.database.tables);
    var committed := db.Commit(commitFails);
    if committed.Err? { reply := Err(committed.error); }
  }

  /**
   * DELETE of the whole storage: no collection is locked, and the precondition is checked before
   * the transaction that deletes begins. What others have committed in the meantime, which leaves
   * the tables `meanwhile`, is deleted unseen.
   */
  method DeleteAll(db: Db, u: U64, precondition: Precondition, env: Env, meanwhile: Tables, commitFails: bool)
      returns (r: Result<Status>)
    requires db.Unused()
    modifies db, db.database
    ensures var t := old(db.database.tables);
      var status := Check(precondition, StorageTimestamp(db.b, t.versions, StoredUser(db.b, u)));
      (db.database.tables, r) ==
        if status != Success then (t, if commitFails && db.b.Spanner? then Err(Sql) else Ok(status))
        else if commitFails then (meanwhile, Err(Sql))
        else (View(meanwhile, Store.DeleteStorage(db.b, meanwhile, u)), Ok(Success))
    ensures var time := StorageTimestamp(db.b, old(db.database.tables).versions, StoredUser(db.b, u));
      r.Ok? ==> match precondition
                case IfModifiedSince(header) => r.value == if header < time then Success else NotModified
                case IfUnmodifiedSince(header) => r.value == if time <= header then Success else PreconditionFailed
                case Anytime => r.value == Success
  {
    if db.b.Spanner? { db.Begin(true); }
    var resource := ExtractResource(db, u, None, None, env);
    var status := Check(precondition, resource);
    if status == Success {
      db.database.tables := meanwhile;
      db.Begin(true);
      db.DeleteStorage(u);
      CommitWithoutMutations(db.database.tables, db.pending);
    }
    Versions.CommitNothing(db.database.tables);
    var committed := db.Commit(commitFails);
    return if committed.Err? then Err(committed.error) else Ok(status);
  }
}
