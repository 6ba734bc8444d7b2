/**
 * What a request does to the collection it has locked: the handlers of src/web/handlers.rs that
 * write, and the precondition that src/db/transaction.rs checks first, as functions of what the
 * session finds in the tables.
 */
module Handlers {
  import opened Wrappers
  import opened Bso
  import opened Store
  import SpannerPost

  datatype Action =
    | Read
    | Put(item: Item)
    | Post(items: seq<Item>, invalid: set<string>)
    | PostBatch(batch: Option<int>, commit: bool, items: seq<Item>, invalid: set<string>)
    | DelBso(id: string)
    | DelBsos(ids: set<string>)
    | DelCollection

  /** X-If-Modified-Since and X-If-Unmodified-Since. */
  datatype Precondition = Anytime | IfModifiedSince(header: int) | IfUnmodifiedSince(header: int)

  datatype Request = Request(u: U64, c: int, bso: Option<string>, precondition: Precondition, action: Action)

  /**
   * What the surroundings decide: the database's clock at each query that reads it, the drawn
   * batch id, the records whose MySQL statement fails, whether the call that stores the records
   * fails, and the mutations that Spanner is left with (their order is that of a hash map).
   */
  datatype Env = Env(
    checkClock: int, validateClock: int, appendClock: int, getClock: int,
    uuid: int, faulty: set<string>, fault: Option<DbError>, mutations: seq<SpannerPost.Mutation>)

  /** Surroundings in which nothing fails. */
  function Calm(uuid: int): Env { Env(0, 0, 0, 0, uuid, {}, None, []) }

  datatype Status = Success | Accepted | NotModified | PreconditionFailed

  /** A response: the X-Last-Modified header if it has been set, and the body. */
  datatype Reply = Reply(
    status: Status, lastModified: Option<int>, modified: Option<int>,
    success: seq<string>, failed: set<string>, batch: Option<int>)

  datatype Done<T> = Done(p: Pending, r: Result<T>)

  datatype Posted = Posted(success: seq<string>, failed: set<string>)

  function IdList(items: seq<Item>): (ids: seq<string>)
    ensures |ids| == |items| && forall i | 0 <= i < |items| :: ids[i] == items[i].id
  {
    seq(|items|, i requires 0 <= i < |items| => items[i].id)
  }

  // ----- calls into the database -----

  /** `post_bsos`. */
  function PostCall(x: Context, env: Env, p: Pending, items: seq<Item>): Done<Posted> {
    if env.fault.Some? then Done(if x.b.Mysql? then p else Touch(x, p), Err(env.fault.value))
    else
      Done(PostBsos(x, p, items, env.faulty, env.mutations),
           Ok(if x.b.Mysql? then Posted(IdList(Without(items, env.faulty)), Ids(items) * env.faulty)
              else Posted(IdList(items), {})))
  }

  /** `put_bso`: on Spanner it is `post_bsos` of the one record. */
  function PutCall(x: Context, env: Env, p: Pending, item: Item): Done<()> {
    if env.fault.Some? then Done(if x.b.Mysql? then p else Touch(x, p), Err(env.fault.value))
    else if x.b.Mysql? then
      if item.id in env.faulty then Done(p, Err(Sql)) else Done(PutOne(x, p, item), Ok(()))
    else Done(PostBsos(x, p, [item], {}, env.mutations), Ok(()))
  }

  /** `append_to_batch`. */
  function AppendCall(x: Context, env: Env, p: Pending, id: int, items: seq<Item>): Done<()> {
    if env.fault.Some? then Done(p, Err(env.fault.value))
    else
      var r := AppendToBatch(x, p, id, items, env.appendClock);
      if r.Err? then Done(p, Err(r.error)) else Done(r.value, Ok(()))
  }

  /** The mutations stand for the records. */
  ghost predicate Represented(x: Context, env: Env, rows: Rows, items: seq<Item>) {
    x.b.Spanner? && env.fault.None? ==>
      SpannerPost.Represents(OwnerOf(KeyOf(x)), x.ts, rows.Keys, env.mutations, items)
  }

  // ----- post_collection_batch -----

  /** The batch named by the request, or a new one. */
  function OpenBatch(x: Context, env: Env, p: Pending, batch: Option<int>): Done<int> {
    if batch.Some? then
      Done(p, if ValidBatch(x, p, batch.value, env.validateClock) then Ok(batch.value) else Err(BatchNotFound))
    else
      var r := CreateBatch(x, p, env.uuid);
      if r.Err? then Done(p, Err(r.error)) else Done(r.value, Ok(NewId(x, env.uuid)))
  }

  /** Records of the last POST are posted at once, those of an earlier one appended. */
  function StoreItems(x: Context, env: Env, p: Pending, id: int, commit: bool, items: seq<Item>): Done<()> {
    if commit && |items| > 0 then
      var posted := PostCall(x, env, p, items);
      Done(posted.p, if posted.r.Err? then Err(posted.r.error) else Ok(()))
    else AppendCall(x, env, p, id, items)
  }

  function FinishBatch(x: Context, env: Env, p: Pending, id: int): Done<()> {
    if !ValidBatch(x, p, id, env.getClock) then Done(p, Err(BatchNotFound))
    else
      var r := CommitBatch(x, p, id, env.faulty);
      if r.Err? then Done(p, Err(r.error)) else Done(r.value, Ok(()))
  }

  /** Only a conflict ends the request; any other error lists the records as failed. */
  function BatchReply(x: Context, commit: bool, stored: Result<()>, id: int, items: seq<Item>,
                      invalid: set<string>): Reply
  {
    Reply(if commit then Success else Accepted,
          if commit then Some(x.ts) else None,
          if commit then Some(x.ts) else None,
          if stored.Ok? then IdList(items) else [],
          if stored.Ok? then invalid else invalid + Ids(items),
          if commit then None else Some(id))
  }

  function HandleBatch(x: Context, env: Env, p: Pending, batch: Option<int>, commit: bool, items: seq<Item>,
                       invalid: set<string>): Done<Reply>
  {
    var upload := OpenBatch(x, env, p, batch);
    if upload.r.Err? then Done(upload.p, Err(upload.r.error))
    else
      var id := upload.r.value;
      var stored := StoreItems(x, env, upload.p, id, commit, items);
      if stored.r == Err(Conflict) then Done(stored.p, Err(Conflict))
      else if !commit then Done(stored.p, Ok(BatchReply(x, commit, stored.r, id, items, invalid)))
      else
        var finished := FinishBatch(x, env, stored.p, id);
        Done(finished.p, if finished.r.Err? then Err(finished.r.error)
                         else Ok(BatchReply(x, commit, stored.r, id, items, invalid)))
  }

  // ----- all handlers -----

  function Plain(lastModified: Option<int>, modified: Option<int>): Reply {
    Reply(Success, lastModified, modified, [], {}, None)
  }

  function Answer<T>(done: Done<T>, reply: Reply): Done<Reply> {
    Done(done.p, if done.r.Err? then Err(done.r.error) else Ok(reply))
  }

  function HandlePost(x: Context, env: Env, p: Pending, items: seq<Item>, invalid: set<string>): Done<Reply> {
    var posted := PostCall(x, env, p, items);
    if posted.r.Err? then Done(posted.p, Err(posted.r.error))
    else Done(posted.p, Ok(Reply(Success, Some(x.ts), Some(x.ts), posted.r.value.success,
                                 invalid + posted.r.value.failed, None)))
  }

  /** DELETE of a collection; one that is not there is answered with the storage timestamp. */
  function HandleDelete(x: Context, p: Pending): Done<Reply> {
    if !Exists(x, p) then Done(p, Ok(Plain(None, Some(StorageTime(x, p)))))
    else
      var q := DeleteCollection(x, p);
      Done(q, Ok(Plain(None, Some(if x.b.Mysql? then StorageTime(x, q) else x.ts))))
  }

  function Handle(x: Context, env: Env, p: Pending, action: Action): Done<Reply> {
    match action
    case Read => Done(p, Ok(Plain(None, None)))
    case Put(item) => Answer(PutCall(x, env, p, item), Plain(Some(x.ts), Some(x.ts)))
    case Post(items, invalid) => HandlePost(x, env, p, items, invalid)
    case PostBatch(batch, commit, items, invalid) => HandleBatch(x, env, p, batch, commit, items, invalid)
    case DelBso(id) =>
      var r := DeleteBso(x, p, id);
      if r.Err? then Done(if x.b.Mysql? then p else Touch(x, p), Err(r.error))
      else Done(r.value, Ok(Plain(None, Some(x.ts))))
    case DelBsos(ids) => Done(DeleteBsos(x, p, ids), Ok(Plain(Some(x.ts), Some(x.ts))))
    case DelCollection => HandleDelete(x, p)
  }

  /** A body whose ids are distinct, as the extractor makes sure. */
  predicate Acceptable(action: Action) { (action.Post? || action.PostBatch?) ==> DistinctIds(action.items) }

  /** .. of the action, if it posts any. */
  ghost predicate Genuine(x: Context, env: Env, action: Action) {
    match action
    case Put(item) => Represented(x, env, x.found.rows, [item])
    case Post(items, _) => Represented(x, env, x.found.rows, items)
    case PostBatch(_, commit, items, _) => commit && |items| > 0 ==> Represented(x, env, x.found.rows, items)
    case _ => true
  }

  // ----- the precondition -----

  /** `get_collection_timestamp`: what the lock has cached, or a query (which on MySQL takes the user as a u32). */
  function CollectionTime(x: Context, cached: Option<int>): int {
    if cached.Some? then cached.value
    else
      var version := Visible(x.b, Lookup(x.versions, TouchedKey(x)));
      if version.Some? then version.value else 0
  }

  /** `get_bso_timestamp`: only Spanner passes over expired rows. */
  function BsoTime(x: Context, id: string, now: int): int {
    var row := RowOf(x.b, x.found.rows, id);
    if row.Some? && (x.b.Spanner? ==> row.value.expiry > now) then row.value.modified else 0
  }

  /** `extract_resource`. */
  function ResourceTime(x: Context, env: Env, cached: Option<int>, bso: Option<string>): int {
    if bso.Some? then BsoTime(x, bso.value, env.checkClock) else CollectionTime(x, cached)
  }

  function Check(precondition: Precondition, resource: int): Status {
    match precondition
    case IfModifiedSince(header) => if resource <= header then NotModified else Success
    case IfUnmodifiedSince(header) => if resource > header then PreconditionFailed else Success
    case Anytime => Success
  }

  /** The closure `check_precondition` of `transaction_http`. */
  function CheckThenAct(x: Context, env: Env, cached: Option<int>, r: Request): Done<Reply> {
    var resource := ResourceTime(x, env, cached, r.bso);
    var status := Check(r.precondition, resource);
    if status != Success then Done(NOTHING, Ok(Reply(status, Some(resource), None, [], {}, None)))
    else
      var done := Handle(x, env, NOTHING, r.action);
      if done.r.Ok? && done.r.value.lastModified.None?
      then Done(done.p, Ok(done.r.value.(lastModified := Some(resource))))
      else done
  }

  // ----- a whole request -----

  /** `lock_for_write`: the version seen, or a conflict if the session's timestamp would not raise it. */
  function Lock(b: Backend, version: Option<int>, ts: int): Result<Option<int>> {
    var seen := Visible(b, version);
    if seen.Some? && seen.value >= ts then Err(Conflict) else Ok(seen)
  }

  function ContextOf(b: Backend, t: Tables, u: U64, c: int, ts: int): Context {
    Context(b, u, c, ts, CollectionAt(t, (StoredUser(b, u), c)), t.versions)
  }

  /** The end of `transaction_http`: errors roll back, anything else is committed, which may still fail. */
  function Finish(t: Tables, done: Done<Reply>, commitFails: bool): (Tables, Result<Reply>) {
    if done.r.Err? then (t, done.r)
    else if commitFails then (t, Err(Sql))
    else
      var committed := CommitTables(t, done.p);
      if committed.Err? then (t, Err(committed.error)) else (committed.value, done.r)
  }

  /** A writing request on its own: lock, precondition, action, then commit or roll back. */
  function Served(b: Backend, t: Tables, ts: int, env: Env, commitFails: bool, r: Request): (Tables, Result<Reply>) {
    var x := ContextOf(b, t, r.u, r.c, ts);
    var lock := Lock(b, x.found.version, ts);
    if lock.Err? then (t, Err(lock.error)) else Finish(t, CheckThenAct(x, env, lock.value, r), commitFails)
  }
}
