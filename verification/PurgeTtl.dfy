/** The chunked purge of expired rows (src/bin/purge_ttl.rs), with the clock standing still and nobody else writing. */
module PurgeTtl {
  import opened Ceiling

  datatype RowKey = RowKey(uid: string, kid: string, collection: int, id: string)

  function Expired(rows: map<RowKey, int>, now: int): set<RowKey> {
    set k | k in rows && rows[k] < now
  }

  /** The table being purged: the expiry of each row. */
  class Table {
    var rows: map<RowKey, int>

    constructor (rows: map<RowKey, int>)
      ensures this.rows == rows
    {
      this.rows := rows;
    }

    /** SELECT .. WHERE expiry < now LIMIT limit: the database chooses which rows, but not how many. */
    method SelectExpired(now: int, limit: nat) returns (selected: seq<RowKey>)
      ensures forall i, j | 0 <= i < j < |selected| :: selected[i] != selected[j]
      ensures forall i | 0 <= i < |selected| :: selected[i] in Expired(rows, now)
      ensures |selected| == if limit < |Expired(rows, now)| then limit else |Expired(rows, now)|
    {
      selected := [];
      var left := Expired(rows, now);
      while |selected| < limit && left != {}
        invariant |selected| <= limit && left <= Expired(rows, now)
        invariant forall i | 0 <= i < |selected| :: selected[i] in Expired(rows, now) && selected[i] !in left
        invariant forall i, j | 0 <= i < j < |selected| :: selected[i] != selected[j]
        invariant |selected| + |left| == |Expired(rows, now)|
        decreases left
      {
        var k :| k in left;
        selected := selected + [k];
        left := left - {k};
      }
    }

    /** DELETE .. WHERE (key) IN (keys). */
    method Delete(keys: set<RowKey>)
      modifies this
      ensures rows == map k | k in old(rows) && k !in keys :: old(rows)[k]
    {
      rows := map k | k in rows && k !in keys :: rows[k];
    }
  }

  function Min(a: nat, b: nat): nat { if a <= b then a else b }

  /**
   * What a purge removes: with a positive chunk size, whole chunks until the limit is reached or
   * nothing expired is left; with no chunk size, nothing.
   */
  function ToRemove(expired: nat, chunkSize: nat, maxToDelete: nat): nat {
    if chunkSize == 0 then 0 else Min(expired, CeilDiv(maxToDelete, chunkSize) * chunkSize)
  }

  /** The loop over the selected rows: their keys, and how many there are. */
  method CollectKeys(selected: seq<RowKey>, count: nat) returns (keys: set<RowKey>, total: nat)
    requires forall i, j | 0 <= i < j < |selected| :: selected[i] != selected[j]
    ensures forall k :: k in keys <==> k in selected
    ensures |keys| == |selected| && total == count + |selected|
  {
    total, keys := count, {};
    var i := 0;
    while i < |selected|
      invariant i <= |selected| && total == count + i && |keys| == i
      invariant forall k :: k in keys <==> k in selected[..i]
    {
      assert selected[..i + 1] == selected[..i] + [selected[i]];
      assert selected[i] !in selected[..i];
      keys := keys + {selected[i]};
      total := total + 1;
      i := i + 1;
    }
    assert selected[..i] == selected;
  }

  /** One transaction of the purge: the selected rows are counted and deleted. */
  method DeleteSelected(table: Table, now: int, selected: seq<RowKey>, count: nat) returns (total: nat)
    requires forall i, j | 0 <= i < j < |selected| :: selected[i] != selected[j]
    requires forall i | 0 <= i < |selected| :: selected[i] in Expired(table.rows, now)
    modifies table
    ensures total == count + |selected|
    ensures Purged(old(table.rows), table.rows, now)
    ensures |Expired(table.rows, now)| + |selected| == |Expired(old(table.rows), now)|
    ensures |table.rows| + |selected| == |old(table.rows)|
  {
    ghost var expired := Expired(table.rows, now);
    var keys;
    keys, total := CollectKeys(selected, count);
    assert keys <= expired;
    table.Delete(keys);
    assert Expired(table.rows, now) == expired - keys;
    assert table.rows.Keys == old(table.rows).Keys - keys;
  }

  /** `after` is `before` less some expired rows. */
  predicate Purged(before: map<RowKey, int>, after: map<RowKey, int>, now: int) {
    && (forall k | k in after :: k in before && after[k] == before[k])
    && (forall k | k in before && k !in after :: before[k] < now)
  }

  /**
   * The loop of the purge: only expired rows go, as many as the limit in whole chunks, and if fewer
   * than the limit are gone no row is left that has expired.
   */
  method DeleteIncremental(table: Table, now: int, chunkSize: nat, maxToDelete: nat)
    modifies table
    ensures Purged(old(table.rows), table.rows, now)
    ensures var expired := set k | k in old(table.rows) && old(table.rows)[k] < now;
      |old(table.rows)| - |table.rows| == ToRemove(|expired|, chunkSize, maxToDelete)
    ensures chunkSize > 0 ==>
      |old(table.rows)| - |table.rows| >= maxToDelete || forall k | k in table.rows :: now <= table.rows[k]
  {
    var total := 0;
    ghost var chunks: nat := 0;
    while true
      invariant Purged(old(table.rows), table.rows, now)
      invariant |Expired(table.rows, now)| + total == |Expired(old(table.rows), now)|
      invariant |table.rows| + total == |old(table.rows)|
      invariant Progress(|Expired(table.rows, now)|, total, chunks, chunkSize, maxToDelete)
      decreases |Expired(table.rows, now)|
    {
      var result := table.SelectExpired(now, chunkSize);
      if |result| == 0 || total >= maxToDelete {
        break;
      }
      NextChunk(|Expired(table.rows, now)|, |result|, total, chunks, chunkSize, maxToDelete);
      total := DeleteSelected(table, now, result, total);
      chunks := chunks + 1;
    }
    Removed(|Expired(old(table.rows), now)|, |Expired(table.rows, now)|, total, chunks, chunkSize, maxToDelete);
    if chunkSize > 0 && total < maxToDelete { NoneExpired(table.rows, now); }
  }

  lemma NoneExpired(rows: map<RowKey, int>, now: int)
    requires |Expired(rows, now)| == 0
    ensures forall k | k in rows :: now <= rows[k]
  {
    forall k | k in rows
      ensures now <= rows[k]
    {
      assert k !in Expired(rows, now);
    }
  }

  /** After `chunks` chunks: all of them whole while rows are left, and the limit not reached before the last. */
  predicate Progress(left: nat, total: nat, chunks: nat, chunkSize: nat, maxToDelete: nat) {
    && (chunkSize == 0 ==> total == 0)
    && total <= chunks * chunkSize
    && (left > 0 ==> total == chunks * chunkSize)
    && (chunks > 0 ==> (chunks - 1) * chunkSize < maxToDelete)
  }

  lemma NextChunk(left: nat, taken: nat, total: nat, chunks: nat, chunkSize: nat, maxToDelete: nat)
    requires Progress(left, total, chunks, chunkSize, maxToDelete)
    requires taken == Min(chunkSize, left) && taken > 0 && total < maxToDelete
    ensures Progress(left - taken, total + taken, chunks + 1, chunkSize, maxToDelete)
  {}

  lemma Removed(expired: nat, left: nat, total: nat, chunks: nat, chunkSize: nat, maxToDelete: nat)
    requires left + total == expired && Progress(left, total, chunks, chunkSize, maxToDelete)
    requires chunkSize > 0 ==> left == 0 || total >= maxToDelete
    ensures total == ToRemove(expired, chunkSize, maxToDelete)
  {
    if chunkSize > 0 {
      if maxToDelete <= chunks * chunkSize && left > 0 {
        CeilDivUnique(maxToDelete, chunkSize, chunks);
      } else {
        CoveredByChunks(total, chunks, chunkSize, maxToDelete);
      }
    }
  }

  lemma CoveredByChunks(total: nat, chunks: nat, chunkSize: nat, maxToDelete: nat)
    requires chunkSize > 0 && total <= chunks * chunkSize
    requires chunks > 0 ==> (chunks - 1) * chunkSize < maxToDelete
    ensures total <= CeilDiv(maxToDelete, chunkSize) * chunkSize
  {
    var c := CeilDiv(maxToDelete, chunkSize);
    CeilDivBounds(maxToDelete, chunkSize);
    if c < chunks {
      Product(c, chunks - 1, chunkSize);
    } else {
      Product(chunks, c, chunkSize);
    }
  }

  /** The limit is overrun by less than a chunk, and a purge that stops short of it leaves nothing expired. */
  lemma PurgeBounds(expired: nat, chunkSize: nat, maxToDelete: nat)
    requires chunkSize > 0
    ensures maxToDelete > 0 ==> ToRemove(expired, chunkSize, maxToDelete) < maxToDelete + chunkSize
    ensures var removed := ToRemove(expired, chunkSize, maxToDelete); removed >= maxToDelete || removed == expired
    ensures maxToDelete == 0 ==> ToRemove(expired, chunkSize, maxToDelete) == 0
  {
    var c := CeilDiv(maxToDelete, chunkSize);
    CeilDivBounds(maxToDelete, chunkSize);
    if c > 0 {
      Product(c - 1, c - 1, chunkSize);
    }
  }
}
