/**
 * MySQL users whose id does not fit 32 bits: `lock_for_write` looks at one row of
 * user_collections and `touch_collection` writes another, so that writes go unnoticed.
 */
module WideUsers {
  import opened Wrappers
  import opened Bso
  import opened Store
  import opened Handlers
  import opened Footprint
  import opened Versions
  import BatchString

  /** Which versions a write of a MySQL session sets: that of the row it touches. */
  lemma WriteVersions(x: Context, env: Env, action: Action)
    requires x.b.Mysql? && IsWrite(action)
    ensures var done := Handle(x, env, NOTHING, action);
      done.r.Ok? ==> done.p.versions == map[TouchedKey(x) := Some(x.ts)]
  {
    match action
    case Put(item) =>
    case Post(items, invalid) => EachOnlyTouched(x, NOTHING, items, env.faulty);
    case PostBatch(batch, commit, items, invalid) => CommitVersions(x, env, batch, items, invalid);
    case DelBso(id) =>
    case DelBsos(ids) =>
  }

  predicate OnlyTouched(x: Context, p: Pending) {
    p.versions == map[] || p.versions == map[TouchedKey(x) := Some(x.ts)]
  }

  lemma EachOnlyTouched(x: Context, p: Pending, items: seq<Item>, faulty: set<string>)
    requires OnlyTouched(x, p)
    ensures var q := PostEach(x, p, items, faulty);
      OnlyTouched(x, q) && Touch(x, q).versions == map[TouchedKey(x) := Some(x.ts)]
  {}

  lemma StoreItemsVersions(x: Context, env: Env, p: Pending, id: int, commit: bool, items: seq<Item>)
    requires x.b.Mysql? && OnlyTouched(x, p)
    ensures OnlyTouched(x, StoreItems(x, env, p, id, commit, items).p)
  {
    EachOnlyTouched(x, p, items, env.faulty);
  }

  lemma FinishVersions(x: Context, env: Env, p: Pending, id: int)
    requires x.b.Mysql? && OnlyTouched(x, p)
    ensures var done := FinishBatch(x, env, p, id);
      done.r.Ok? ==> done.p.versions == map[TouchedKey(x) := Some(x.ts)]
  {
    if ValidBatch(x, p, id, env.getClock) {
      match BatchesAt(x, p)[id].content
      case Text(bsos) =>
        var items := BatchString.BatchStringToBsos(bsos);
        if items.Ok? { EachOnlyTouched(x, p, items.value, env.faulty); }
      case Children(children) => SetTwice(map[], TouchedKey(x), Some(x.ts), Some(x.ts));
    }
  }

  lemma CommitVersions(x: Context, env: Env, batch: Option<int>, items: seq<Item>, invalid: set<string>)
    requires x.b.Mysql?
    ensures var done := HandleBatch(x, env, NOTHING, batch, true, items, invalid);
      done.r.Ok? ==> done.p.versions == map[TouchedKey(x) := Some(x.ts)]
  {
    var upload := OpenBatch(x, env, NOTHING, batch);
    if upload.r.Ok? {
      StoreItemsVersions(x, env, upload.p, upload.r.value, true, items);
      FinishVersions(x, env, StoreItems(x, env, upload.p, upload.r.value, true, items).p, upload.r.value);
    }
  }

  /**
   * After a write that has been carried out the row that was locked holds the session's timestamp
   * if and only if the user id fits 32 bits, or the backend is Spanner.
   */
  lemma WriteRaisesTheLockedRow(x: Context, env: Env, action: Action)
    requires x.c >= 1 && Parented(x.b, x.found) && IsWrite(action)
    requires x.found.version != Some(x.ts)
    ensures var done := Handle(x, env, NOTHING, action);
      done.r.Ok? ==> (VersionAfter(x, done.p) == Some(x.ts) <==> Safe(x.b, x.u))
  {
    TouchesTheLockedRow(x);
    if Safe(x.b, x.u) {
      HandleShape(x, env, action);
    } else {
      WriteVersions(x, env, action);
    }
  }

  lemma PutLeavesTheLockedRow(t: Tables, x: Context, item: Item)
    requires x.b.Mysql? && x.u >= 0x1_0000_0000
    ensures var committed := CommitTables(t, PutOne(x, NOTHING, item));
      committed.Ok? && CollectionAt(committed.value, KeyOf(x)).version == CollectionAt(t, KeyOf(x)).version
  {}

  lemma PutPasses(x: Context, env: Env, u: U64, c: int, item: Item, version: int)
    requires x.b.Mysql? && env.fault.None? && item.id !in env.faulty
    ensures var done := CheckThenAct(x, env, Some(version), Request(u, c, None, IfUnmodifiedSince(version), Put(item)));
      done.p == PutOne(x, NOTHING, item) && done.r.Ok? && done.r.value.status == Success
  {}

  lemma PutServed(t: Tables, u: U64, c: int, ts: int, env: Env, item: Item, version: int)
    requires u >= 0x1_0000_0000 && CollectionAt(t, (AsI64(u), c)).version == Some(version) && version < ts
    requires env.fault.None? && item.id !in env.faulty
    ensures var (t', reply) :=
      Served(Mysql, t, ts, env, false, Request(u, c, None, IfUnmodifiedSince(version), Put(item)));
      && reply.Ok? && reply.value.status == Success
      && CollectionAt(t', (AsI64(u), c)).version == Some(version)
  {
    var x := ContextOf(Mysql, t, u, c, ts);
    PutPasses(x, env, u, c, item, version);
    PutLeavesTheLockedRow(t, x, item);
  }

  /**
   * From 2^32 on an update is lost: two clients that have read the same version both write on the
   * condition that it is still there, one after the other, and both are told that they succeeded.
   */
  lemma WideUsersLoseUpdates(t: Tables, u: U64, c: int, version: int, ts: int, env: Env, item: Item, ts': int,
                             env': Env, item': Item)
    requires u >= 0x1_0000_0000 && CollectionAt(t, (AsI64(u), c)).version == Some(version)
    requires version < ts < ts'
    requires env.fault.None? && item.id !in env.faulty && env'.fault.None? && item'.id !in env'.faulty
    ensures var condition := IfUnmodifiedSince(version);
      var (t1, reply) := Served(Mysql, t, ts, env, false, Request(u, c, None, condition, Put(item)));
      var (t2, reply') := Served(Mysql, t1, ts', env', false, Request(u, c, None, condition, Put(item')));
      && reply.Ok? && reply.value.status == Success
      && reply'.Ok? && reply'.value.status == Success
  {
    PutServed(t, u, c, ts, env, item, version);
    var t1 := Served(Mysql, t, ts, env, false, Request(u, c, None, IfUnmodifiedSince(version), Put(item))).0;
    PutServed(t1, u, c, ts', env', item', version);
  }
}
