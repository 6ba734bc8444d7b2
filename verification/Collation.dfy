/**
 * How MySQL compares record ids and collection names: the columns are latin1 without a COLLATE
 * (migrations/2018-08-28-010336_init/up.sql), so that neither case nor blanks at the end count.
 * Ids are printable ASCII and names letters, digits and `._-` (src/server/mod.rs), for which that
 * is all there is to the collation.
 */
module Collation {
  import opened Wrappers
  import opened Bso
  import opened Upsert

  function Lower(c: char): char { if 'A' <= c <= 'Z' then (c as int + 32) as char else c }

  function Trim(s: string): string { if s != "" && s[|s| - 1] == ' ' then Trim(s[..|s| - 1]) else s }

  function Fold(s: string): string { var t := Trim(s); seq(|t|, i requires 0 <= i < |t| => Lower(t[i])) }

  predicate Same(a: string, b: string) { Fold(a) == Fold(b) }

  /** No two of the ids are equal only under the collation. */
  predicate Apart(ids: set<string>) { forall a, b | a in ids && b in ids && Same(a, b) :: a == b }

  /** The stored id that the primary key takes for the given one. */
  function StoredId(rows: Rows, id: string): (r: Option<string>)
    ensures r.Some? ==> r.value in rows && Same(r.value, id)
  {
    if key :| key in rows && Same(key, id) && (forall k | k in rows && Same(k, id) :: k == key) then Some(key) else None
  }

  /** The row a WHERE id = .. finds. */
  function FindRow(rows: Rows, id: string): Option<Row> {
    var key := StoredId(rows, id);
    if key.Some? then Some(rows[key.value]) else None
  }

  /** The rows that a WHERE id = .. passes over. */
  function Others(rows: Rows, id: string): Rows { map key | key in rows && !Same(key, id) :: rows[key] }

  /** INSERT .. ON DUPLICATE KEY UPDATE, which also sets the id: the row takes on the spelling of the record. */
  function PutCollated(rows: Rows, ts: int, item: Item): Rows {
    var prior := FindRow(rows, item.id);
    Others(rows, item.id)[item.id := if prior.Some? then UpdatedRow(prior.value, ts, item) else NewRow(ts, item)]
  }

  function PutAllCollated(rows: Rows, ts: int, items: seq<Item>): Rows {
    if |items| == 0 then rows
    else PutCollated(PutAllCollated(rows, ts, items[..|items| - 1]), ts, items[|items| - 1])
  }

  /** DELETE .. WHERE id IN (..). */
  function RemoveCollated(rows: Rows, ids: set<string>): Rows {
    map key | key in rows && (forall id | id in ids :: !Same(key, id)) :: rows[key]
  }

  // ----- the primary key is kept -----

  lemma PutKeepsApart(rows: Rows, ts: int, item: Item)
    requires Apart(rows.Keys)
    ensures Apart(PutCollated(rows, ts, item).Keys)
  {}

  lemma {:induction false} PutAllKeepsApart(rows: Rows, ts: int, items: seq<Item>)
    requires Apart(rows.Keys)
    ensures Apart(PutAllCollated(rows, ts, items).Keys)
  {
    if |items| > 0 {
      PutAllKeepsApart(rows, ts, items[..|items| - 1]);
      PutKeepsApart(PutAllCollated(rows, ts, items[..|items| - 1]), ts, items[|items| - 1]);
    }
  }

  // ----- the row that is found -----

  /** With the key kept, a row is found under every id that is equal to its own. */
  lemma FindsUnderAny(rows: Rows, key: string, id: string)
    requires Apart(rows.Keys) && key in rows && Same(key, id)
    ensures StoredId(rows, id) == Some(key) && FindRow(rows, id) == Some(rows[key])
  {
    forall k | k in rows && Same(k, id)
      ensures k == key
    {
      assert k in rows.Keys && key in rows.Keys && Same(k, key);
    }
  }

  lemma FindsAlike(rows: Rows, a: string, b: string)
    requires Apart(rows.Keys) && Same(a, b)
    ensures FindRow(rows, a) == FindRow(rows, b)
  {
    if StoredId(rows, a).Some? { FindsUnderAny(rows, StoredId(rows, a).value, b); }
    if StoredId(rows, b).Some? { FindsUnderAny(rows, StoredId(rows, b).value, a); }
  }

  // ----- where the collation makes no difference -----

  lemma PutIsExact(rows: Rows, ts: int, item: Item)
    requires Apart(rows.Keys + {item.id})
    ensures PutCollated(rows, ts, item) == PutBso(rows, ts, item)
  {}

  lemma {:induction false} PutAllOfApart(rows: Rows, ts: int, items: seq<Item>)
    requires Apart(rows.Keys + Ids(items))
    ensures PutAllCollated(rows, ts, items) == PutAll(rows, ts, items)
  {
    if |items| > 0 {
      var before, last := items[..|items| - 1], items[|items| - 1];
      IdsLast(items);
      PutAllOfApart(rows, ts, before);
      PutAllKeys(rows, ts, before);
      PutIsExact(PutAll(rows, ts, before), ts, last);
    }
  }

  /**
   * MySQL's upserts are those of exact ids, which are Spanner's, if and only if no two of the ids
   * posted and stored are equal only under the collation.
   */
  lemma PutAllIsExact(rows: Rows, ts: int, items: seq<Item>)
    requires Apart(rows.Keys)
    ensures PutAllCollated(rows, ts, items) == PutAll(rows, ts, items) <==> Apart(rows.Keys + Ids(items))
  {
    PutAllKeepsApart(rows, ts, items);
    PutAllKeys(rows, ts, items);
    if Apart(rows.Keys + Ids(items)) { PutAllOfApart(rows, ts, items); }
  }

  /** Records whose ids are apart may be written in any order. */
  lemma AnyOrder(rows: Rows, ts: int, xs: seq<Item>, ys: seq<Item>)
    requires DistinctIds(xs) && DistinctIds(ys) && Apart(rows.Keys + Ids(xs))
    requires forall item :: item in xs <==> item in ys
    ensures PutAllCollated(rows, ts, xs) == PutAllCollated(rows, ts, ys)
  {
    SubsetIds(xs, ys);
    SubsetIds(ys, xs);
    PutAllOfApart(rows, ts, xs);
    PutAllOfApart(rows, ts, ys);
    OrderDoesNotMatter(rows, ts, xs, ys);
  }

  lemma RemoveIsExact(rows: Rows, ids: set<string>)
    requires Apart(rows.Keys + ids)
    ensures RemoveCollated(rows, ids) == rows - ids
  {}

  /** A POST of "a" and "A" leaves one row on MySQL, spelled as the second, and two on Spanner. */
  lemma CaseCollides(ts: int)
    ensures var items := [Item("a", None, Some("first"), None), Item("A", None, Some("second"), None)];
      && PutAllCollated(map[], ts, items).Keys == {"A"}
      && PutAll(map[], ts, items).Keys == {"a", "A"}
  {
    var items := [Item("a", None, Some("first"), None), Item("A", None, Some("second"), None)];
    assert items[..1] == [items[0]] && items[..0] == [];
    assert Trim("a") == "a" && Trim("A") == "A";
    assert Fold("a") == "a" == Fold("A");
    assert PutAllCollated(map[], ts, items[..0]) == map[];
    assert PutAllCollated(map[], ts, items[..1]).Keys == {"a"};
    PutAllKeys(map[], ts, items);
    assert Ids(items) == {"a", "A"} by { assert items[0].id == "a" && items[1].id == "A"; }
  }
}
