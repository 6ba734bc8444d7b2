/**
 * Spanner's commit of a batch: one UPDATE of the rows that exist, one INSERT of those that do not
 * (src/db/spanner/batch_commit_update.sql, src/db/spanner/batch_commit_insert.sql).
 */
module BatchCommit {
  import opened Wrappers
  import opened Bso
  import opened Upsert

  /** The child rows of a batch, by record id: the primary key of batch_bsos. */
  type Children = map<string, Item>

  function Coalesce<T>(a: Option<T>, b: Option<T>): Option<T> { if a.Some? then a else b }

  /** SET of the UPDATE for one row: every field is coalesced, `modified` is set in any case. */
  function CoalescedRow(row: Row, ts: int, item: Item): Row {
    Row(Coalesce(item.sortindex, row.sortindex),
        if item.payload.Some? then item.payload.value else row.payload,
        ts,
        if item.ttl.Some? then ExpiryOf(ts, item.ttl.value) else row.expiry)
  }

  /** UPDATE bsos SET .. WHERE bso_id IN (the batch). */
  function CommitUpdate(rows: Rows, ts: int, batch: Children): Rows {
    map id | id in rows :: if id in batch then CoalescedRow(rows[id], ts, batch[id]) else rows[id]
  }

  /** INSERT INTO bsos SELECT .. FROM batch_bsos WHERE batch_bso_id NOT IN (bsos). */
  function CommitInsert(rows: Rows, ts: int, batch: Children): Rows {
    rows + map id | id in batch && id !in rows ::
      Row(batch[id].sortindex,
          if batch[id].payload.Some? then batch[id].payload.value else "",
          ts,
          ExpiryOf(ts, if batch[id].ttl.Some? then batch[id].ttl.value else DEFAULT_BSO_TTL))
  }

  function Commit(rows: Rows, ts: int, batch: Children): Rows {
    CommitInsert(CommitUpdate(rows, ts, batch), ts, batch)
  }

  /** The batch holds exactly the given records. */
  predicate Holds(batch: Children, items: seq<Item>) {
    && DistinctIds(items)
    && batch.Keys == Ids(items)
    && forall i | 0 <= i < |items| :: items[i].id in batch && batch[items[i].id] == items[i]
  }

  lemma HoldsLatest(batch: Children, items: seq<Item>, id: string)
    requires Holds(batch, items)
    ensures Latest(items, id) == Lookup(batch, id)
  {
    if id in batch {
      var i :| 0 <= i < |items| && items[i].id == id;
      LatestOfDistinct(items, i);
    }
  }

  /** Each row the statements touch, they touch once: the two sets of ids part the batch, and no other row changes. */
  lemma TouchesOnce(rows: Rows, ts: int, batch: Children)
    ensures var updated := CommitUpdate(rows, ts, batch);
      var committed := Commit(rows, ts, batch);
      && updated.Keys == rows.Keys
      && committed.Keys == rows.Keys + batch.Keys
      && (forall id | id in batch && id in rows :: committed[id] == updated[id])
      && (forall id | id in rows && id !in batch :: committed[id] == rows[id])
      && (forall id | id in batch && id !in rows :: id !in updated && committed[id] == NewRow(ts, batch[id]))
  {}

  /** The row a committed record makes of what was there. */
  function Committed(prior: Option<Row>, ts: int, item: Option<Item>): Option<Row> {
    if item.None? then prior
    else if prior.Some? then Some(CoalescedRow(prior.value, ts, item.value))
    else Some(NewRow(ts, item.value))
  }

  lemma CommitAt(rows: Rows, ts: int, batch: Children, id: string)
    ensures Lookup(Commit(rows, ts, batch), id) == Committed(Lookup(rows, id), ts, Lookup(batch, id))
  {}

  /**
   * `modified` is where the two backends part: MySQL leaves it alone when an existing row only gets a
   * ttl, or nothing.
   */
  predicate SameModified(rows: Rows, ts: int, batch: Children, id: string) {
    (id in batch && id in rows) ==> Modifies(batch[id]) || rows[id].modified == ts
  }

  function SetModified(row: Row, ts: int): Row { row.(modified := ts) }

  /**
   * The statements agree with the fold of upserts over the same records: on every row, but for
   * `modified`, and on `modified` exactly where `SameModified` says so.
   */
  lemma CommitAgreesWithPutAll(rows: Rows, ts: int, batch: Children, items: seq<Item>, id: string)
    requires Holds(batch, items)
    ensures var set_based, folded := Lookup(Commit(rows, ts, batch), id), Lookup(PutAll(rows, ts, items), id);
      && set_based.Some? == folded.Some?
      && (folded.Some? ==> set_based.value == if id in batch then SetModified(folded.value, ts) else folded.value)
      && (set_based == folded <==> SameModified(rows, ts, batch, id))
  {
    PutAllAt(rows, ts, items, id);
    HoldsLatest(batch, items, id);
    CommitAt(rows, ts, batch, id);
  }

  /** Committing is the fold of upserts exactly if every record of an existing row sets its payload or sortindex. */
  lemma CommitIsPutAll(rows: Rows, ts: int, batch: Children, items: seq<Item>)
    requires Holds(batch, items)
    ensures Commit(rows, ts, batch) == PutAll(rows, ts, items) <==> forall id :: SameModified(rows, ts, batch, id)
  {
    forall id
      ensures Lookup(Commit(rows, ts, batch), id) == Lookup(PutAll(rows, ts, items), id)
        <==> SameModified(rows, ts, batch, id)
    {
      CommitAgreesWithPutAll(rows, ts, batch, items, id);
    }
    if forall id :: SameModified(rows, ts, batch, id) {
      forall id
        ensures Lookup(Commit(rows, ts, batch), id) == Lookup(PutAll(rows, ts, items), id)
      {
        assert SameModified(rows, ts, batch, id);
      }
      SameRows(Commit(rows, ts, batch), PutAll(rows, ts, items));
    }
  }
}
