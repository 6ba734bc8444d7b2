/**
 * The upsert of one record, `put_bso_sync` in src/db/mysql/models.rs: the simple form that the
 * faster ways of writing records are measured against.
 */
module Upsert {
  import opened Wrappers
  import opened Bso

  function Or<T>(newer: Option<T>, older: Option<T>): Option<T> { if newer.Some? then newer else older }

  function GetOr<T>(o: Option<T>, default: T): T { if o.Some? then o.value else default }

  /** VALUES of the INSERT. */
  function NewRow(ts: int, item: Item): Row {
    Row(item.sortindex, GetOr(item.payload, ""), ts, ExpiryOf(ts, GetOr(item.ttl, DEFAULT_BSO_TTL)))
  }

  /** Whether a record counts as a modification of the row it is written to. */
  predicate Modifies(item: Item) { item.payload.Some? || item.sortindex.Some? }

  /** ON DUPLICATE KEY UPDATE: only the fields the record has, and `modified` unless it is about the ttl alone. */
  function UpdatedRow(row: Row, ts: int, item: Item): Row {
    Row(Or(item.sortindex, row.sortindex),
        GetOr(item.payload, row.payload),
        if Modifies(item) then ts else row.modified,
        if item.ttl.Some? then ExpiryOf(ts, item.ttl.value) else row.expiry)
  }

  function PutBso(rows: Rows, ts: int, item: Item): Rows {
    rows[item.id := if item.id in rows then UpdatedRow(rows[item.id], ts, item) else NewRow(ts, item)]
  }

  /** The loop of `post_bsos_sync`. */
  function PutAll(rows: Rows, ts: int, items: seq<Item>): Rows {
    if |items| == 0 then rows else PutBso(PutAll(rows, ts, items[..|items| - 1]), ts, items[|items| - 1])
  }

  lemma {:induction false} PutAllConcat(rows: Rows, ts: int, a: seq<Item>, b: seq<Item>)
    ensures PutAll(rows, ts, a + b) == PutAll(PutAll(rows, ts, a), ts, b)
  {
    if |b| == 0 {
      assert a + b == a;
    } else {
      PutAllConcat(rows, ts, a, b[..|b| - 1]);
      assert (a + b)[..|a + b| - 1] == a + b[..|b| - 1];
    }
  }

  lemma {:induction false} PutAllKeys(rows: Rows, ts: int, items: seq<Item>)
    ensures PutAll(rows, ts, items).Keys == rows.Keys + Ids(items)
  {
    if |items| > 0 {
      PutAllKeys(rows, ts, items[..|items| - 1]);
      IdsLast(items);
    }
  }

  // ----- records of one id come to one record -----

  /** Field by field, the later record where it says something, otherwise the earlier one. */
  function Merge(earlier: Item, later: Item): Item {
    Item(later.id, Or(later.sortindex, earlier.sortindex), Or(later.payload, earlier.payload),
         Or(later.ttl, earlier.ttl))
  }

  function MergeOption(earlier: Option<Item>, later: Option<Item>): Option<Item> {
    if earlier.None? then later else if later.None? then earlier else Some(Merge(earlier.value, later.value))
  }

  /** All the records of one id merged. */
  function Latest(items: seq<Item>, id: string): (r: Option<Item>)
    ensures r.Some? ==> r.value.id == id
    ensures r.Some? <==> id in Ids(items)
  {
    if |items| == 0 then None
    else
      var last := items[|items| - 1];
      var before := items[..|items| - 1];
      IdsLast(items);
      MergeOption(Latest(before, id), if last.id == id then Some(last) else None)
  }

  /** The row a record makes of what was there. */
  function Written(prior: Option<Row>, ts: int, item: Option<Item>): Option<Row> {
    if item.None? then prior
    else if prior.Some? then Some(UpdatedRow(prior.value, ts, item.value))
    else Some(NewRow(ts, item.value))
  }

  lemma WrittenTwice(prior: Option<Row>, ts: int, a: Option<Item>, b: Option<Item>)
    ensures Written(Written(prior, ts, a), ts, b) == Written(prior, ts, MergeOption(a, b))
  {}

  /** Writing many records leaves each row as writing its merged record once would. */
  lemma {:induction false} PutAllAt(rows: Rows, ts: int, items: seq<Item>, id: string)
    ensures Lookup(PutAll(rows, ts, items), id) == Written(Lookup(rows, id), ts, Latest(items, id))
  {
    if |items| > 0 {
      var before, last := items[..|items| - 1], items[|items| - 1];
      PutAllAt(rows, ts, before, id);
      WrittenTwice(Lookup(rows, id), ts, Latest(before, id), if last.id == id then Some(last) else None);
    }
  }

  lemma SameRows(a: Rows, b: Rows)
    requires forall id :: Lookup(a, id) == Lookup(b, id)
    ensures a == b
  {
    forall id
      ensures id in a <==> id in b
      ensures id in a ==> a[id] == b[id]
    {
      assert Lookup(a, id) == Lookup(b, id);
    }
  }

  lemma {:induction false} LatestConcat(a: seq<Item>, b: seq<Item>, id: string)
    ensures Latest(a + b, id) == MergeOption(Latest(a, id), Latest(b, id))
  {
    if |b| == 0 {
      assert a + b == a;
    } else {
      var last := b[|b| - 1];
      LatestConcat(a, b[..|b| - 1], id);
      assert (a + b)[..|a + b| - 1] == a + b[..|b| - 1];
      MergeAssociates(Latest(a, id), Latest(b[..|b| - 1], id), if last.id == id then Some(last) else None);
    }
  }

  lemma MergeAssociates(a: Option<Item>, b: Option<Item>, c: Option<Item>)
    ensures MergeOption(a, MergeOption(b, c)) == MergeOption(MergeOption(a, b), c)
  {}

  lemma {:induction false} LatestOfDistinct(items: seq<Item>, i: nat)
    requires DistinctIds(items) && i < |items|
    ensures Latest(items, items[i].id) == Some(items[i])
  {
    var before, last := items[..|items| - 1], items[|items| - 1];
    if i < |before| {
      LatestOfDistinct(before, i);
      assert before[i] == items[i];
    } else {
      assert last.id !in Ids(before);
    }
  }

  /** Records of distinct ids may be written in any order. */
  lemma OrderDoesNotMatter(rows: Rows, ts: int, xs: seq<Item>, ys: seq<Item>)
    requires DistinctIds(xs) && DistinctIds(ys)
    requires forall item :: item in xs <==> item in ys
    ensures PutAll(rows, ts, xs) == PutAll(rows, ts, ys)
  {
    forall id
      ensures Lookup(PutAll(rows, ts, xs), id) == Lookup(PutAll(rows, ts, ys), id)
    {
      PutAllAt(rows, ts, xs, id);
      PutAllAt(rows, ts, ys, id);
      SameLatest(xs, ys, id);
    }
    SameRows(PutAll(rows, ts, xs), PutAll(rows, ts, ys));
  }

  lemma SubsetIds(xs: seq<Item>, ys: seq<Item>)
    requires forall item :: item in xs ==> item in ys
    ensures Ids(xs) <= Ids(ys)
  {
    forall id | id in Ids(xs)
      ensures id in Ids(ys)
    {
      var i :| 0 <= i < |xs| && xs[i].id == id;
      assert xs[i] in ys;
      var j :| 0 <= j < |ys| && ys[j] == xs[i];
      assert ys[j].id == id;
    }
  }

  lemma SameLatest(xs: seq<Item>, ys: seq<Item>, id: string)
    requires DistinctIds(xs) && DistinctIds(ys)
    requires forall item :: item in xs <==> item in ys
    ensures Latest(xs, id) == Latest(ys, id)
  {
    SubsetIds(xs, ys);
    SubsetIds(ys, xs);
    if id in Ids(xs) {
      var i :| 0 <= i < |xs| && xs[i].id == id;
      LatestOfDistinct(xs, i);
      assert xs[i] in ys;
      var j :| 0 <= j < |ys| && ys[j] == xs[i];
      LatestOfDistinct(ys, j);
    }
  }
}
