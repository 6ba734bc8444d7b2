/**
 * The tables, a session's pending changes on top of them, and what each database operation of
 * src/db/mysql/models.rs, src/db/mysql/batch.rs, src/db/spanner/models.rs and
 * src/db/spanner/batch.rs does to them.
 */
module Store {
  import opened Wrappers
  import opened Bso
  import opened Upsert
  import opened Collation
  import opened SpannerPost
  import opened BatchString
  import BatchCommit
  import Decimal

  datatype Backend = Mysql | Spanner

  const TOMBSTONE: int := 0

  /** `modified` of a parent row that only exists for the sake of a batch: the year 1, in milliseconds. */
  const PRETOUCH_TS: int := -62_135_596_800_000

  const BATCH_LIFETIME: int := 2 * 60 * 60 * 1000

  /** A user and a collection. On Spanner the number stands for the pair of Firefox account ids. */
  type Key = (int, int)

  /** A MySQL batch is a text, a Spanner batch has child rows. */
  datatype Content = Text(bsos: string) | Children(items: BatchCommit.Children)

  datatype Batch = Batch(content: Content, expiry: int)

  type Batches = map<int, Batch>

  datatype Tables = Tables(versions: map<Key, int>, bsos: map<Key, Rows>, batches: map<Key, Batches>)

  /** The part of the tables that belongs to one collection. */
  datatype Collection = Collection(version: Option<int>, rows: Rows, batches: Batches)

  function CollectionAt(t: Tables, k: Key): Collection {
    Collection(Lookup(t.versions, k),
               if k in t.bsos then t.bsos[k] else map[],
               if k in t.batches then t.batches[k] else map[])
  }

  /** Changes not committed yet: rows written or deleted by statements, and Spanner's buffered mutations. */
  datatype Pending = Pending(
    versions: map<Key, Option<int>>,
    bsos: map<Key, Rows>,
    batches: map<Key, Batches>,
    mutations: map<Key, seq<Mutation>>)

  const NOTHING: Pending := Pending(map[], map[], map[], map[])

  // ----- integer casts of the user id -----

  function AsU32(u: U64): int { u % 0x1_0000_0000 }

  function AsI32(u: U64): int { if AsU32(u) < 0x8000_0000 then AsU32(u) else AsU32(u) - 0x1_0000_0000 }

  function StoredUser(b: Backend, u: U64): int { if b.Mysql? then AsI64(u) else u }

  /** `touch_collection` takes the user as a u32. */
  function TouchedUser(b: Backend, u: U64): int { if b.Mysql? then AsU32(u) else u }

  /** `erect_tombstone` takes the user as an i32. */
  function TombstoneUser(b: Backend, u: U64): int { if b.Mysql? then AsI32(u) else u }

  // ----- reading through the pending changes -----

  /** `modified` as the queries of the backend see it: Spanner's pass over pretouched parents. */
  function Visible(b: Backend, version: Option<int>): Option<int> {
    if b.Spanner? && version.Some? && version.value <= PRETOUCH_TS then None else version
  }

  /** A map with some of its entries written or deleted. */
  function Overlay<K, V>(m: map<K, V>, changes: map<K, Option<V>>): map<K, V> {
    map k | k in m.Keys + changes.Keys && (k in changes ==> changes[k].Some?) ::
      if k in changes then changes[k].value else m[k]
  }

  lemma OverlayAt<K, V>(m: map<K, V>, changes: map<K, Option<V>>, k: K)
    ensures Lookup(Overlay(m, changes), k) == if k in changes then changes[k] else Lookup(m, k)
  {}

  /** The tables as the session sees them. */
  function View(t: Tables, p: Pending): Tables {
    Tables(Overlay(t.versions, p.versions), t.bsos + p.bsos, t.batches + p.batches)
  }

  function OwnerOf(k: Key): Owner { Owner(Decimal.Print(k.0), "", k.1) }

  /** Applying the buffered mutations to the tables that the statements have left. */
  function Applied(v: Tables, mutations: map<Key, seq<Mutation>>, k: Key): Result<Rows> {
    ApplyAll(OwnerOf(k), CollectionAt(v, k).rows, if k in mutations then mutations[k] else [])
  }

  /** A commit makes the changes durable and applies the mutations; if one of them cannot be applied nothing happens. */
  function CommitTables(t: Tables, p: Pending): Result<Tables> {
    var v := View(t, p);
    if exists k | k in p.mutations :: Applied(v, p.mutations, k).Err? then Err(Sql)
    else Ok(v.(bsos := v.bsos + map k | k in p.mutations :: Applied(v, p.mutations, k).value))
  }

  lemma CommitWithoutMutations(t: Tables, p: Pending)
    requires p.mutations == map[]
    ensures CommitTables(t, p) == Ok(View(t, p))
  {
    assert View(t, p).bsos + map[] == View(t, p).bsos;
  }

  /** The visible versions of a user's collections, the tombstone included. */
  function UserVersions(b: Backend, versions: map<Key, int>, user: int): set<int> {
    set k | k in versions && k.0 == user && Visible(b, Some(versions[k])).Some? :: versions[k]
  }

  lemma {:induction false} MaxExists(s: set<int>)
    requires s != {}
    ensures exists m :: m in s && forall i | i in s :: i <= m
  {
    assert (forall i :: i !in s) ==> s == {};
    var i :| i in s;
    if s == {i} {
    } else {
      var rest := s - {i};
      assert s == rest + {i};
      MaxExists(rest);
      var m :| m in rest && forall j | j in rest :: j <= m;
      var max := if m < i then i else m;
      assert max in s && forall j | j in s :: j <= max;
    }
  }

  function Max(s: set<int>): (m: int)
    requires s != {}
    ensures m in s && forall i | i in s :: i <= m
  {
    MaxExists(s);
    var m :| m in s && forall i | i in s :: i <= m;
    m
  }

  /** `get_storage_timestamp`: zero for a user without any collection. */
  function StorageTimestamp(b: Backend, versions: map<Key, int>, user: int): int {
    var s := UserVersions(b, versions, user);
    if s == {} then 0 else Max(s)
  }

  /** There is only one latest version. */
  lemma IsStorageTimestamp(b: Backend, versions: map<Key, int>, user: int, m: int)
    requires var s := UserVersions(b, versions, user);
      if s == {} then m == 0 else m in s && forall v | v in s :: v <= m
    ensures m == StorageTimestamp(b, versions, user)
  {}

  // ----- operations -----

  /** A session at work on one collection, what the tables hold of it, and the versions of all collections. */
  datatype Context = Context(b: Backend, u: U64, c: int, ts: int, found: Collection, versions: map<Key, int>)

  function KeyOf(x: Context): Key { (StoredUser(x.b, x.u), x.c) }

  function VersionAt(x: Context, p: Pending): Option<int> {
    if KeyOf(x) in p.versions then p.versions[KeyOf(x)] else x.found.version
  }

  function RowsAt(x: Context, p: Pending): Rows { if KeyOf(x) in p.bsos then p.bsos[KeyOf(x)] else x.found.rows }

  function BatchesAt(x: Context, p: Pending): Batches {
    if KeyOf(x) in p.batches then p.batches[KeyOf(x)] else x.found.batches
  }

  function SetVersion(p: Pending, k: Key, v: Option<int>): Pending { p.(versions := p.versions[k := v]) }

  function SetRows(x: Context, p: Pending, rows: Rows): Pending { p.(bsos := p.bsos[KeyOf(x) := rows]) }

  function SetBatches(x: Context, p: Pending, batches: Batches): Pending {
    p.(batches := p.batches[KeyOf(x) := batches])
  }

  function AddMutations(x: Context, p: Pending, mutations: seq<Mutation>): Pending {
    var k := KeyOf(x);
    p.(mutations := p.mutations[k := (if k in p.mutations then p.mutations[k] else []) + mutations])
  }

  /** The storage timestamp as the session sees it. */
  function StorageTime(x: Context, p: Pending): int {
    StorageTimestamp(x.b, View(Tables(x.versions, map[], map[]), p).versions, StoredUser(x.b, x.u))
  }

  function TouchedKey(x: Context): Key { (TouchedUser(x.b, x.u), x.c) }

  function TombstoneKey(x: Context): Key { (TombstoneUser(x.b, x.u), TOMBSTONE) }

  function Touch(x: Context, p: Pending): Pending { SetVersion(p, TouchedKey(x), Some(x.ts)) }

  function ErectTombstone(x: Context, p: Pending): Pending { SetVersion(p, TombstoneKey(x), Some(x.ts)) }

  /** The records whose statement does not fail. */
  function Without(items: seq<Item>, faulty: set<string>): seq<Item> {
    if |items| == 0 then []
    else
      var before := Without(items[..|items| - 1], faulty);
      var last := items[|items| - 1];
      if last.id in faulty then before else before + [last]
  }

  /** `put_bso_sync`: the upsert and a touch. */
  function PutOne(x: Context, p: Pending, item: Item): Pending {
    Touch(x, SetRows(x, p, PutCollated(RowsAt(x, p), x.ts, item)))
  }

  /** The loop of `post_bsos_sync`: a record whose statement fails is left out. */
  function PostEach(x: Context, p: Pending, items: seq<Item>, faulty: set<string>): Pending {
    if |items| == 0 then p
    else
      var before := PostEach(x, p, items[..|items| - 1], faulty);
      var last := items[|items| - 1];
      if last.id in faulty then before else PutOne(x, before, last)
  }

  /** `post_bsos`: MySQL writes record by record, Spanner buffers mutations that represent the records. */
  function PostBsos(x: Context, p: Pending, items: seq<Item>, faulty: set<string>, mutations: seq<Mutation>): Pending {
    match x.b
    case Mysql => Touch(x, PostEach(x, p, items, faulty))
    case Spanner => AddMutations(x, Touch(x, p), mutations)
  }

  /** Only the rows and the touch of the collection differ. */
  predicate WroteOnly(x: Context, p: Pending, q: Pending, rows: Rows) {
    && RowsAt(x, q) == rows
    && (q.versions == p.versions || q.versions == p.versions[TouchedKey(x) := Some(x.ts)])
    && (q.bsos == p.bsos || q.bsos == p.bsos[KeyOf(x) := rows])
    && q.batches == p.batches && q.mutations == p.mutations
  }

  lemma SetTwice<K, V>(m: map<K, V>, k: K, v: V, w: V)
    ensures m[k := v][k := w] == m[k := w]
  {}

  lemma PutOneWroteOnly(x: Context, p: Pending, q: Pending, item: Item)
    requires WroteOnly(x, p, q, RowsAt(x, q))
    ensures WroteOnly(x, p, PutOne(x, q, item), PutCollated(RowsAt(x, q), x.ts, item))
  {}

  /** What the loop leaves: the upserts of the records that did not fail, and nothing else but a touch. */
  lemma {:induction false} PostEachIsPutAll(x: Context, p: Pending, items: seq<Item>, faulty: set<string>)
    ensures WroteOnly(x, p, PostEach(x, p, items, faulty), PutAllCollated(RowsAt(x, p), x.ts, Without(items, faulty)))
  {
    if |items| > 0 {
      var before, last := items[..|items| - 1], items[|items| - 1];
      PostEachIsPutAll(x, p, before, faulty);
      if last.id !in faulty {
        PutOneWroteOnly(x, p, PostEach(x, p, before, faulty), last);
        PutAllSnoc(RowsAt(x, p), x.ts, Without(before, faulty), last);
      }
    }
  }

  lemma PutAllSnoc(rows: Rows, ts: int, items: seq<Item>, last: Item)
    ensures PutAllCollated(rows, ts, items + [last]) == PutCollated(PutAllCollated(rows, ts, items), ts, last)
  {}

  /** Whether the backend takes two ids or names for equal: MySQL by the collation of the column. */
  predicate SameText(b: Backend, x: string, y: string) { if b.Mysql? then Same(x, y) else x == y }

  /** The row of an id. */
  function RowOf(b: Backend, rows: Rows, id: string): Option<Row> {
    if b.Mysql? then FindRow(rows, id) else Lookup(rows, id)
  }

  function RemoveRows(b: Backend, rows: Rows, ids: set<string>): Rows {
    if b.Mysql? then RemoveCollated(rows, ids) else rows - ids
  }

  function DeleteBsos(x: Context, p: Pending, ids: set<string>): Pending {
    Touch(x, SetRows(x, p, RemoveRows(x.b, RowsAt(x, p), ids)))
  }

  /** `get_bso`: MySQL shows a row in the millisecond of its expiry, which its other queries do not. */
  function GetBso(x: Context, p: Pending, id: string, now: int): Option<Row> {
    var row := RowOf(x.b, RowsAt(x, p), id);
    if row.Some? && (if x.b.Mysql? then row.value.expiry >= x.ts else row.value.expiry > now) then row else None
  }

  /** `delete_bso`: only MySQL looks at the expiry of the row. */
  function DeleteBso(x: Context, p: Pending, id: string): Result<Pending> {
    var row := RowOf(x.b, RowsAt(x, p), id);
    if row.Some? && (x.b.Mysql? ==> row.value.expiry > x.ts) then Ok(DeleteBsos(x, p, {id})) else Err(BsoNotFound)
  }

  /** Whether `delete_collection` finds anything to delete. */
  predicate Exists(x: Context, p: Pending) {
    match x.b
    case Mysql => RowsAt(x, p) != map[] || VersionAt(x, p).Some?
    case Spanner => Visible(x.b, VersionAt(x, p)).Some?
  }

  /**
   * `delete_collection`: a tombstone takes the place of the rows; MySQL's batches stay, Spanner's go
   * with their parent.
   */
  function DeleteCollection(x: Context, p: Pending): Pending
    requires Exists(x, p)
  {
    var rowless := SetVersion(SetRows(x, p, map[]), KeyOf(x), None);
    ErectTombstone(x, if x.b.Mysql? then rowless else SetBatches(x, rowless, map[]))
  }

  /** `delete_storage`: every row of the user; MySQL's batches stay. */
  function DeleteStorage(b: Backend, t: Tables, u: U64): Pending {
    var user := StoredUser(b, u);
    Pending(
      map k | k in t.versions && k.0 == user :: None,
      map k | k in t.bsos && k.0 == user :: map[],
      if b.Mysql? then map[] else map k | k in t.batches && k.0 == user :: map[],
      map[])
  }

  /** `pretouch_collection`: a parent row for the batch, if there is none. */
  function Pretouch(x: Context, p: Pending): Pending {
    if VersionAt(x, p).None? then SetVersion(p, KeyOf(x), Some(PRETOUCH_TS)) else p
  }

  /** The child rows after inserting the records: an id that is there already makes the statement fail. */
  function AddChildren(children: BatchCommit.Children, items: seq<Item>): Result<BatchCommit.Children> {
    if |items| == 0 then Ok(children)
    else
      var before := AddChildren(children, items[..|items| - 1]);
      var last := items[|items| - 1];
      if before.Err? then before
      else if last.id in before.value then Err(Sql)
      else Ok(before.value[last.id := last])
  }

  function NewBatch(x: Context): Batch {
    Batch(if x.b.Mysql? then Content.Text(BsosToBatchString([])) else Children(map[]), x.ts + BATCH_LIFETIME)
  }

  /** MySQL's id is the session's timestamp, Spanner's is drawn. */
  function NewId(x: Context, uuid: int): int { if x.b.Mysql? then x.ts else uuid }

  /** `batch::create` without records. */
  function CreateBatch(x: Context, p: Pending, uuid: int): Result<Pending> {
    var id := NewId(x, uuid);
    if id in BatchesAt(x, p) then Err(if x.b.Mysql? then Conflict else Sql)
    else Ok(SetBatches(x, if x.b.Mysql? then p else Pretouch(x, p), BatchesAt(x, p)[id := NewBatch(x)]))
  }

  /** The time a batch's expiry is compared with: MySQL takes the session's, Spanner the clock of the database. */
  function Clock(x: Context, now: int): int { if x.b.Mysql? then x.ts else now }

  /** `batch::validate`, and the condition of `batch::get`. */
  predicate ValidBatch(x: Context, p: Pending, id: int, now: int) {
    id in BatchesAt(x, p) && BatchesAt(x, p)[id].expiry > Clock(x, now)
  }

  function AppendContent(content: Content, items: seq<Item>): Result<Content> {
    match content
    case Text(bsos) => Ok(Content.Text(bsos + BsosToBatchString(items)))
    case Children(children) =>
      var r := AddChildren(children, items);
      if r.Err? then Err(r.error) else Ok(Children(r.value))
  }

  /** `batch::append`. */
  function AppendToBatch(x: Context, p: Pending, id: int, items: seq<Item>, now: int): Result<Pending> {
    if !ValidBatch(x, p, id, now) then Err(BatchNotFound)
    else
      var batch := BatchesAt(x, p)[id];
      var content := AppendContent(batch.content, items);
      if content.Err? then Err(content.error)
      else Ok(SetBatches(x, p, BatchesAt(x, p)[id := batch.(content := content.value)]))
  }

  function DeleteBatch(x: Context, p: Pending, id: int): Pending { SetBatches(x, p, BatchesAt(x, p) - {id}) }

  /** `batch::commit` of a batch that `batch::get` has found. */
  function CommitBatch(x: Context, p: Pending, id: int, faulty: set<string>): Result<Pending>
    requires id in BatchesAt(x, p)
  {
    match BatchesAt(x, p)[id].content
    case Text(bsos) =>
      var items := BatchStringToBsos(bsos);
      if items.Err? then Err(items.error)
      else Ok(DeleteBatch(x, Touch(x, PostEach(x, p, items.value, faulty)), id))
    case Children(children) =>
      var rows := BatchCommit.Commit(RowsAt(x, p), x.ts, children);
      Ok(DeleteBatch(x, SetRows(x, Touch(x, p), rows), id))
  }
}
