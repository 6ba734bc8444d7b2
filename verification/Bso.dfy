/** The records clients post and the rows that are stored for them. */
module Bso {
  import opened Wrappers

  /** The ttl of a row that is never supposed to expire, in seconds. */
  const DEFAULT_BSO_TTL: int := 2_100_000_000

  /** A posted record (`PostCollectionBso`): any field but the id may be missing. */
  datatype Item = Item(id: string, sortindex: Option<I32>, payload: Option<string>, ttl: Option<U32>)

  /** A stored row; times are milliseconds since the epoch. */
  datatype Row = Row(sortindex: Option<I32>, payload: string, modified: int, expiry: int)

  /** The rows of one user's collection, by id. */
  type Rows = map<string, Row>

  function Ids(items: seq<Item>): (ids: set<string>)
    ensures forall id :: id in ids <==> exists i :: 0 <= i < |items| && items[i].id == id
  {
    set i | 0 <= i < |items| :: items[i].id
  }

  predicate DistinctIds(items: seq<Item>) {
    forall i, j | 0 <= i < j < |items| :: items[i].id != items[j].id
  }

  lemma IdsLast(items: seq<Item>)
    requires |items| > 0
    ensures Ids(items) == Ids(items[..|items| - 1]) + {items[|items| - 1].id}
  {}

  lemma IdsSnoc(items: seq<Item>, last: Item)
    ensures Ids(items + [last]) == Ids(items) + {last.id}
  {
    assert (items + [last])[..|items|] == items;
    IdsLast(items + [last]);
  }

  function ExpiryOf(ts: int, ttl: U32): int { ts + ttl * 1000 }
}
