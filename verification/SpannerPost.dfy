/**
 * Spanner's way of posting records (`post_bsos_async` in src/db/spanner/models.rs, the row
 * builders in src/db/spanner/support.rs): one insert and one update for each list of columns,
 * buffered as mutations that the database applies when the transaction commits.
 */
module SpannerPost {
  import opened Wrappers
  import opened Bso
  import opened Upsert

  const MAX_SPANNER_LOAD_SIZE: int := 100_000_000

  datatype Column = FxaUid | FxaKid | CollectionId | BsoId | SortIndex | Payload | Modified | Expiry

  datatype Value = Text(text: string) | Int64(n: int) | Time(ms: int) | Null

  /** The collection a session writes to. */
  datatype Owner = Owner(uid: string, kid: string, collection: int)

  datatype Mutation = Mutation(insert: bool, columns: seq<Column>, values: seq<seq<Value>>)

  const INSERT_COLUMNS: seq<Column> := [FxaUid, FxaKid, CollectionId, BsoId, SortIndex, Payload, Modified, Expiry]

  function OwnerValues(owner: Owner, id: string): seq<Value> {
    [Text(owner.uid), Text(owner.kid), Int64(owner.collection), Text(id)]
  }

  /** `bso_to_insert_row`. */
  function InsertRow(owner: Owner, item: Item, now: int): seq<Value> {
    OwnerValues(owner, item.id)
    + [if item.sortindex.Some? then Int64(item.sortindex.value) else Null,
       Text(GetOr(item.payload, "")),
       Time(now),
       Time(ExpiryOf(now, GetOr(item.ttl, DEFAULT_BSO_TTL)))]
  }

  function UpdateColumns(item: Item): seq<Column> {
    [FxaUid, FxaKid, CollectionId, BsoId]
    + (if item.sortindex.Some? then [SortIndex] else [])
    + (if item.payload.Some? then [Payload] else [])
    + (if Modifies(item) then [Modified] else [])
    + (if item.ttl.Some? then [Expiry] else [])
  }

  function UpdateValues(owner: Owner, item: Item, now: int): (values: seq<Value>)
    ensures |values| == |UpdateColumns(item)|
  {
    OwnerValues(owner, item.id)
    + (if item.sortindex.Some? then [Int64(item.sortindex.value)] else [])
    + (if item.payload.Some? then [Text(item.payload.value)] else [])
    + (if Modifies(item) then [Time(now)] else [])
    + (if item.ttl.Some? then [Time(ExpiryOf(now, item.ttl.value))] else [])
  }

  /** `bso_to_update_row`, pushing a column and its value for each field the record has. */
  method BsoToUpdateRow(owner: Owner, item: Item, now: int) returns (columns: seq<Column>, values: seq<Value>)
    ensures columns == UpdateColumns(item) && values == UpdateValues(owner, item, now)
  {
    columns := [FxaUid, FxaKid, CollectionId, BsoId];
    values := OwnerValues(owner, item.id);
    var modified := item.payload.Some? || item.sortindex.Some?;
    if item.sortindex.Some? {
      columns, values := columns + [SortIndex], values + [Int64(item.sortindex.value)];
    }
    if item.payload.Some? {
      columns, values := columns + [Payload], values + [Text(item.payload.value)];
    }
    if modified {
      columns, values := columns + [Modified], values + [Time(now)];
    }
    if item.ttl.Some? {
      columns, values := columns + [Expiry], values + [Time(ExpiryOf(now, item.ttl.value))];
    }
  }

  // ----- what the database does with a mutation -----

  /** The value a row of a mutation gives for a column. */
  function Cell(columns: seq<Column>, values: seq<Value>, column: Column): Option<Value>
    requires |columns| == |values|
  {
    if |columns| == 0 then None
    else if columns[0] == column then Some(values[0])
    else Cell(columns[1..], values[1..], column)
  }

  function AsSortindex(cell: Option<Value>, prior: Option<I32>): Result<Option<I32>> {
    match cell
    case None => Ok(prior)
    case Some(Null) => Ok(None)
    case Some(Int64(n)) => if -0x8000_0000 <= n < 0x8000_0000 then Ok(Some(n)) else Err(Sql)
    case Some(_) => Err(Sql)
  }

  function AsText(cell: Option<Value>, prior: Option<string>): Result<string> {
    match cell
    case None => if prior.Some? then Ok(prior.value) else Err(Sql)
    case Some(Text(s)) => Ok(s)
    case Some(_) => Err(Sql)
  }

  function AsTime(cell: Option<Value>, prior: Option<int>): Result<int> {
    match cell
    case None => if prior.Some? then Ok(prior.value) else Err(Sql)
    case Some(Time(ms)) => Ok(ms)
    case Some(_) => Err(Sql)
  }

  /** The row made of the given cells over what was there; a column that must not be null needs a value. */
  function Assemble(prior: Option<Row>, columns: seq<Column>, values: seq<Value>): Result<Row>
    requires |columns| == |values|
  {
    var sortindex := AsSortindex(Cell(columns, values, SortIndex), if prior.Some? then prior.value.sortindex else None);
    var payload := AsText(Cell(columns, values, Payload), if prior.Some? then Some(prior.value.payload) else None);
    var modified := AsTime(Cell(columns, values, Modified), if prior.Some? then Some(prior.value.modified) else None);
    var expiry := AsTime(Cell(columns, values, Expiry), if prior.Some? then Some(prior.value.expiry) else None);
    if sortindex.Err? || payload.Err? || modified.Err? || expiry.Err? then Err(Sql)
    else Ok(Row(sortindex.value, payload.value, modified.value, expiry.value))
  }

  /** An insert fails on a row that exists, an update on one that does not. */
  function ApplyRow(owner: Owner, rows: Rows, insert: bool, columns: seq<Column>, values: seq<Value>): Result<Rows> {
    if |columns| != |values| || |values| < 4 || columns[..4] != INSERT_COLUMNS[..4] || !values[3].Text? then Err(Sql)
    else
      var id := values[3].text;
      if values[..4] != OwnerValues(owner, id) then Err(Integrity)
      else if insert == (id in rows) then Err(Sql)
      else
        var row := Assemble(Lookup(rows, id), columns, values);
        if row.Err? then Err(row.error) else Ok(rows[id := row.value])
  }

  function ApplyRows(owner: Owner, rows: Rows, insert: bool, columns: seq<Column>,
                     values: seq<seq<Value>>): Result<Rows>
  {
    if |values| == 0 then Ok(rows)
    else
      var before := ApplyRows(owner, rows, insert, columns, values[..|values| - 1]);
      if before.Err? then before else ApplyRow(owner, before.value, insert, columns, values[|values| - 1])
  }

  function ApplyAll(owner: Owner, rows: Rows, mutations: seq<Mutation>): Result<Rows> {
    if |mutations| == 0 then Ok(rows)
    else
      var before := ApplyAll(owner, rows, mutations[..|mutations| - 1]);
      var last := mutations[|mutations| - 1];
      if before.Err? then before else ApplyRows(owner, before.value, last.insert, last.columns, last.values)
  }

  // ----- one row of a mutation is one upsert -----

  lemma InsertIsPut(owner: Owner, rows: Rows, item: Item, now: int)
    requires item.id !in rows
    ensures ApplyRow(owner, rows, true, INSERT_COLUMNS, InsertRow(owner, item, now)) == Ok(PutBso(rows, now, item))
  {
    var values := InsertRow(owner, item, now);
    CellAt(INSERT_COLUMNS, values, 4);
    CellAt(INSERT_COLUMNS, values, 5);
    CellAt(INSERT_COLUMNS, values, 6);
    CellAt(INSERT_COLUMNS, values, 7);
    assert values[..4] == OwnerValues(owner, item.id);
  }

  /** The cell of a column is the value at its first position. */
  lemma {:induction false} CellAt(columns: seq<Column>, values: seq<Value>, i: nat)
    requires |columns| == |values| && i < |columns|
    requires forall j | 0 <= j < i :: columns[j] != columns[i]
    ensures Cell(columns, values, columns[i]) == Some(values[i])
  {
    if i > 0 {
      CellAt(columns[1..], values[1..], i - 1);
    }
  }

  lemma {:induction false} NoCell(columns: seq<Column>, values: seq<Value>, column: Column)
    requires |columns| == |values| && column !in columns
    ensures Cell(columns, values, column) == None
  {
    if |columns| > 0 {
      NoCell(columns[1..], values[1..], column);
    }
  }

  /** Where the optional columns of an update row begin. */
  function Position(item: Item, column: Column): nat {
    4 + (if item.sortindex.Some? && column != SortIndex then 1 else 0)
      + (if item.payload.Some? && (column.Modified? || column.Expiry?) then 1 else 0)
      + (if Modifies(item) && column.Expiry? then 1 else 0)
  }

  predicate Has(item: Item, column: Column) {
    match column
    case SortIndex => item.sortindex.Some?
    case Payload => item.payload.Some?
    case Modified => Modifies(item)
    case Expiry => item.ttl.Some?
    case _ => true
  }

  /** The cells of an update row: a column is there exactly if the record has the field. */
  lemma UpdateCell(owner: Owner, item: Item, now: int, column: Column)
    requires column in {SortIndex, Payload, Modified, Expiry}
    ensures var c, v, i := UpdateColumns(item), UpdateValues(owner, item, now), Position(item, column);
      if Has(item, column) then i < |v| && Cell(c, v, column) == Some(v[i]) else Cell(c, v, column) == None
  {
    var c, v := UpdateColumns(item), UpdateValues(owner, item, now);
    if Has(item, column) {
      CellAt(c, v, Position(item, column));
    } else {
      NoCell(c, v, column);
    }
  }

  lemma UpdateCells(owner: Owner, item: Item, now: int)
    ensures var c, v := UpdateColumns(item), UpdateValues(owner, item, now);
      && Cell(c, v, SortIndex) == (if item.sortindex.Some? then Some(Int64(item.sortindex.value)) else None)
      && Cell(c, v, Payload) == (if item.payload.Some? then Some(Text(item.payload.value)) else None)
      && Cell(c, v, Modified) == (if Modifies(item) then Some(Time(now)) else None)
      && Cell(c, v, Expiry) == (if item.ttl.Some? then Some(Time(ExpiryOf(now, item.ttl.value))) else None)
  {
    UpdateCell(owner, item, now, SortIndex);
    UpdateCell(owner, item, now, Payload);
    UpdateCell(owner, item, now, Modified);
    UpdateCell(owner, item, now, Expiry);
  }

  lemma UpdateIsPut(owner: Owner, rows: Rows, item: Item, now: int)
    requires item.id in rows
    ensures ApplyRow(owner, rows, false, UpdateColumns(item), UpdateValues(owner, item, now))
         == Ok(PutBso(rows, now, item))
  {
    UpdateCells(owner, item, now);
    assert UpdateColumns(item)[..4] == INSERT_COLUMNS[..4];
    assert UpdateValues(owner, item, now)[..4] == OwnerValues(owner, item.id);
  }

  // ----- a group of rows is a fold of upserts -----

  /** The mutation `m` writes the records of `group`, `existing` being the ids found in the table. */
  predicate Writes(owner: Owner, now: int, existing: set<string>, m: Mutation, group: seq<Item>) {
    && |m.values| == |group|
    && (m.insert ==> m.columns == INSERT_COLUMNS)
    && forall i | 0 <= i < |group| ::
         if m.insert then group[i].id !in existing && m.values[i] == InsertRow(owner, group[i], now)
         else
           && group[i].id in existing
           && m.columns == UpdateColumns(group[i]) && m.values[i] == UpdateValues(owner, group[i], now)
  }

  predicate WritesAll(owner: Owner, now: int, existing: set<string>, mutations: seq<Mutation>, groups: seq<seq<Item>>) {
    && |mutations| == |groups|
    && forall i | 0 <= i < |groups| :: Writes(owner, now, existing, mutations[i], groups[i])
  }

  function Flatten(groups: seq<seq<Item>>): seq<Item> {
    if |groups| == 0 then [] else Flatten(groups[..|groups| - 1]) + groups[|groups| - 1]
  }

  /** What the mutations find: the ids of the records are in the table exactly if they were found before. */
  predicate Finds(rows: Rows, existing: set<string>, items: seq<Item>) {
    forall i | 0 <= i < |items| :: items[i].id in rows <==> items[i].id in existing
  }

  lemma {:induction false} RowsArePuts(owner: Owner, rows: Rows, now: int, existing: set<string>, m: Mutation,
                                       group: seq<Item>)
    requires Writes(owner, now, existing, m, group) && DistinctIds(group) && Finds(rows, existing, group)
    ensures ApplyRows(owner, rows, m.insert, m.columns, m.values) == Ok(PutAll(rows, now, group))
    decreases |group|
  {
    if |group| > 0 {
      var n := |group| - 1;
      var m' := m.(values := m.values[..n]);
      RowsArePuts(owner, rows, now, existing, m', group[..n]);
      var before := PutAll(rows, now, group[..n]);
      PutAllKeys(rows, now, group[..n]);
      assert group[n].id !in Ids(group[..n]);
      if m.insert {
        InsertIsPut(owner, before, group[n], now);
      } else {
        UpdateIsPut(owner, before, group[n], now);
      }
    }
  }

  lemma DistinctParts(a: seq<Item>, b: seq<Item>)
    requires DistinctIds(a + b)
    ensures DistinctIds(a) && DistinctIds(b) && Ids(a) !! Ids(b)
  {
    assert forall i | 0 <= i < |a| :: (a + b)[i] == a[i];
    assert forall i | 0 <= i < |b| :: (a + b)[|a| + i] == b[i];
    forall i, j | 0 <= i < |a| && 0 <= j < |b|
      ensures a[i].id != b[j].id
    {
      assert (a + b)[i].id != (a + b)[|a| + j].id;
    }
  }

  lemma FindsParts(rows: Rows, now: int, existing: set<string>, a: seq<Item>, b: seq<Item>)
    requires DistinctIds(a + b) && Finds(rows, existing, a + b)
    ensures DistinctIds(a) && DistinctIds(b) && Finds(rows, existing, a)
    ensures Finds(PutAll(rows, now, a), existing, b)
  {
    DistinctParts(a, b);
    PutAllKeys(rows, now, a);
    forall i | 0 <= i < |a|
      ensures a[i].id in rows <==> a[i].id in existing
    {
      assert (a + b)[i] == a[i];
    }
    forall i | 0 <= i < |b|
      ensures b[i].id in PutAll(rows, now, a) <==> b[i].id in existing
    {
      assert (a + b)[|a| + i] == b[i];
      assert b[i].id in Ids(b);
    }
  }

  /** Applying the mutations is the fold of upserts over their records, in the order they stand in. */
  lemma {:induction false} MutationsArePuts(owner: Owner, rows: Rows, now: int, existing: set<string>,
                                            mutations: seq<Mutation>, groups: seq<seq<Item>>)
    requires WritesAll(owner, now, existing, mutations, groups)
    requires DistinctIds(Flatten(groups)) && Finds(rows, existing, Flatten(groups))
    ensures ApplyAll(owner, rows, mutations) == Ok(PutAll(rows, now, Flatten(groups)))
    decreases |groups|
  {
    if |groups| > 0 {
      var n := |groups| - 1;
      var before, last := Flatten(groups[..n]), groups[n];
      FindsParts(rows, now, existing, before, last);
      MutationsArePuts(owner, rows, now, existing, mutations[..n], groups[..n]);
      RowsArePuts(owner, PutAll(rows, now, before), now, existing, mutations[n], last);
      PutAllConcat(rows, now, before, last);
    }
  }

  // ----- splitting the records -----

  /** Where a record goes: with the inserts (None) or with the updates of a list of columns. */
  predicate GoesTo(item: Item, existing: set<string>, target: Option<seq<Column>>) {
    if target.None? then item.id !in existing else item.id in existing && UpdateColumns(item) == target.value
  }

  function Going(items: seq<Item>, existing: set<string>, target: Option<seq<Column>>): (group: seq<Item>)
    ensures forall item :: item in group <==> item in items && GoesTo(item, existing, target)
  {
    if |items| == 0 then []
    else
      var before := Going(items[..|items| - 1], existing, target);
      var last := items[|items| - 1];
      assert items == items[..|items| - 1] + [last];
      if GoesTo(last, existing, target) then before + [last] else before
  }

  function RowFor(owner: Owner, now: int, existing: set<string>, item: Item): seq<Value> {
    if item.id in existing then UpdateValues(owner, item, now) else InsertRow(owner, item, now)
  }

  function RowsFor(owner: Owner, now: int, existing: set<string>, items: seq<Item>): (rows: seq<seq<Value>>)
    ensures |rows| == |items|
    ensures forall i | 0 <= i < |items| :: rows[i] == RowFor(owner, now, existing, items[i])
  {
    seq(|items|, i requires 0 <= i < |items| => RowFor(owner, now, existing, items[i]))
  }

  function LoadSize(rowSize: seq<Value> -> nat, rows: seq<seq<Value>>): nat {
    if |rows| == 0 then 0 else LoadSize(rowSize, rows[..|rows| - 1]) + rowSize(rows[|rows| - 1])
  }

  /** The mutations write exactly the given records, each once, in some order. */
  ghost predicate Represents(owner: Owner, now: int, existing: set<string>, mutations: seq<Mutation>,
                             items: seq<Item>)
  {
    exists groups :: Grouping(owner, now, existing, mutations, items, groups)
  }

  ghost predicate Grouping(owner: Owner, now: int, existing: set<string>, mutations: seq<Mutation>, items: seq<Item>,
                           groups: seq<seq<Item>>)
  {
    && WritesAll(owner, now, existing, mutations, groups)
    && DistinctIds(Flatten(groups))
    && forall item :: item in Flatten(groups) <==> item in items
  }

  /** However the groups are ordered, applying mutations that represent the records is the fold of upserts over them. */
  lemma RepresentedIsPutAll(owner: Owner, rows: Rows, now: int, existing: set<string>, mutations: seq<Mutation>,
                            items: seq<Item>)
    requires Represents(owner, now, existing, mutations, items)
    requires DistinctIds(items) && Finds(rows, existing, items)
    ensures ApplyAll(owner, rows, mutations) == Ok(PutAll(rows, now, items))
  {
    var groups :| Grouping(owner, now, existing, mutations, items, groups);
    var order := Flatten(groups);
    forall i | 0 <= i < |order|
      ensures order[i].id in rows <==> order[i].id in existing
    {
      assert order[i] in items;
    }
    MutationsArePuts(owner, rows, now, existing, mutations, groups);
    OrderDoesNotMatter(rows, now, order, items);
  }

  lemma {:induction false} GoingDistinct(items: seq<Item>, existing: set<string>, target: Option<seq<Column>>)
    requires DistinctIds(items)
    ensures DistinctIds(Going(items, existing, target))
  {
    if |items| > 0 {
      var before, last := items[..|items| - 1], items[|items| - 1];
      GoingDistinct(before, existing, target);
      var group := Going(before, existing, target);
      forall i | 0 <= i < |group|
        ensures group[i].id != last.id
      {
        assert group[i] in before;
      }
    }
  }

  lemma DistinctTogether(items: seq<Item>, a: seq<Item>, b: seq<Item>)
    requires DistinctIds(items) && DistinctIds(a) && DistinctIds(b)
    requires forall item | item in a :: item in items && item !in b
    requires forall item | item in b :: item in items
    ensures DistinctIds(a + b)
  {
    forall i, j | 0 <= i < |a| && 0 <= j < |b|
      ensures a[i].id != b[j].id
    {
      assert a[i] in items && b[j] in items && a[i] in a && b[j] in b;
    }
  }

  lemma GroupWrites(owner: Owner, now: int, existing: set<string>, items: seq<Item>, target: Option<seq<Column>>)
    ensures var group := Going(items, existing, target);
      Writes(owner, now, existing,
             Mutation(target.None?, if target.None? then INSERT_COLUMNS else target.value,
                      RowsFor(owner, now, existing, group)),
             group)
  {}

  /** Appending a group's mutation keeps the mutations a grouping of the records written so far. */
  lemma AddGroup(owner: Owner, now: int, existing: set<string>, items: seq<Item>, target: Option<seq<Column>>,
                 mutations: seq<Mutation>, groups: seq<seq<Item>>, m: Mutation)
    requires DistinctIds(items)
    requires WritesAll(owner, now, existing, mutations, groups) && DistinctIds(Flatten(groups))
    requires forall item | item in Flatten(groups) :: item in items && !GoesTo(item, existing, target)
    requires m == Mutation(target.None?, if target.None? then INSERT_COLUMNS else target.value,
                           RowsFor(owner, now, existing, Going(items, existing, target)))
    ensures var groups' := groups + [Going(items, existing, target)];
      && WritesAll(owner, now, existing, mutations + [m], groups')
      && DistinctIds(Flatten(groups'))
      && forall item ::
        item in Flatten(groups') <==> item in Flatten(groups) || (item in items && GoesTo(item, existing, target))
  {
    var group := Going(items, existing, target);
    GroupWrites(owner, now, existing, items, target);
    GoingDistinct(items, existing, target);
    DistinctTogether(items, Flatten(groups), group);
    assert (groups + [group])[..|groups|] == groups;
  }

  /** `inserts` and `updates` hold the rows of the records, each group in the records' order. */
  ghost predicate Split(owner: Owner, now: int, existing: set<string>, items: seq<Item>,
                        inserts: seq<seq<Value>>, updates: map<seq<Column>, seq<seq<Value>>>)
  {
    && inserts == RowsFor(owner, now, existing, Going(items, existing, None))
    && (forall c :: c in updates <==> Going(items, existing, Some(c)) != [])
    && (forall c | c in updates :: updates[c] == RowsFor(owner, now, existing, Going(items, existing, Some(c))))
  }

  /** .. and the size of them all has been added up. */
  ghost predicate IsSplit(owner: Owner, now: int, existing: set<string>, items: seq<Item>, rowSize: seq<Value> -> nat,
                          inserts: seq<seq<Value>>, updates: map<seq<Column>, seq<seq<Value>>>, loadSize: nat)
  {
    && Split(owner, now, existing, items, inserts, updates)
    && loadSize == LoadSize(rowSize, RowsFor(owner, now, existing, items))
  }

  lemma NothingSplit(owner: Owner, now: int, existing: set<string>, rowSize: seq<Value> -> nat)
    ensures IsSplit(owner, now, existing, [], rowSize, [], map[], 0)
  {}

  lemma OneMore(items: seq<Item>, i: nat)
    requires i < |items|
    ensures items[..i] + [items[i]] == items[..i + 1]
  {}

  lemma InsertStep(owner: Owner, now: int, existing: set<string>, items: seq<Item>, item: Item,
                   inserts: seq<seq<Value>>, updates: map<seq<Column>, seq<seq<Value>>>)
    requires Split(owner, now, existing, items, inserts, updates) && item.id !in existing
    ensures Split(owner, now, existing, items + [item], inserts + [InsertRow(owner, item, now)], updates)
  {}

  function Push(updates: map<seq<Column>, seq<seq<Value>>>, columns: seq<Column>, values: seq<Value>)
    : map<seq<Column>, seq<seq<Value>>>
  {
    updates[columns := (if columns in updates then updates[columns] else []) + [values]]
  }

  lemma NextRecord(owner: Owner, now: int, existing: set<string>, items: seq<Item>, item: Item,
                   target: Option<seq<Column>>)
    ensures var before, after := Going(items, existing, target), Going(items + [item], existing, target);
      if GoesTo(item, existing, target)
      then after != [] && RowsFor(owner, now, existing, after)
                       == RowsFor(owner, now, existing, before) + [RowFor(owner, now, existing, item)]
      else after == before
  {}

  lemma UpdateStep(owner: Owner, now: int, existing: set<string>, items: seq<Item>, item: Item,
                   inserts: seq<seq<Value>>, updates: map<seq<Column>, seq<seq<Value>>>)
    requires Split(owner, now, existing, items, inserts, updates) && item.id in existing
    ensures Split(owner, now, existing, items + [item], inserts,
                  Push(updates, UpdateColumns(item), UpdateValues(owner, item, now)))
  {
    NextRecord(owner, now, existing, items, item, None);
    var columns := UpdateColumns(item);
    NextRecord(owner, now, existing, items, item, Some(columns));
    forall c | c != columns
      ensures Going(items + [item], existing, Some(c)) == Going(items, existing, Some(c))
    {
      NextRecord(owner, now, existing, items, item, Some(c));
    }
  }

  lemma SizeStep(owner: Owner, now: int, existing: set<string>, items: seq<Item>, item: Item,
                 rowSize: seq<Value> -> nat)
    ensures LoadSize(rowSize, RowsFor(owner, now, existing, items + [item]))
         == LoadSize(rowSize, RowsFor(owner, now, existing, items)) + rowSize(RowFor(owner, now, existing, item))
  {
    var rows := RowsFor(owner, now, existing, items + [item]);
    assert rows[..|items|] == RowsFor(owner, now, existing, items);
  }

  /** The body of the loop: the record's row joins the inserts or the updates of its columns. */
  method AddRecord(owner: Owner, existing: set<string>, ghost done: seq<Item>, item: Item, now: int,
                   rowSize: seq<Value> -> nat,
                   inserts: seq<seq<Value>>, updates: map<seq<Column>, seq<seq<Value>>>, loadSize: nat)
      returns (inserts': seq<seq<Value>>, updates': map<seq<Column>, seq<seq<Value>>>, loadSize': nat)
    requires IsSplit(owner, now, existing, done, rowSize, inserts, updates, loadSize)
    ensures IsSplit(owner, now, existing, done + [item], rowSize, inserts', updates', loadSize')
  {
    inserts', updates' := inserts, updates;
    SizeStep(owner, now, existing, done, item, rowSize);
    if item.id in existing {
      UpdateStep(owner, now, existing, done, item, inserts, updates);
      var columns, values := BsoToUpdateRow(owner, item, now);
      loadSize' := loadSize + rowSize(values);
      updates' := Push(updates, columns, values);
    } else {
      InsertStep(owner, now, existing, done, item, inserts, updates);
      var values := InsertRow(owner, item, now);
      loadSize' := loadSize + rowSize(values);
      inserts' := inserts + [values];
    }
  }

  /** The loop of `post_bsos_async`: rows to insert, rows to update by column list, and the size of them all. */
  method SplitRecords(owner: Owner, existing: set<string>, items: seq<Item>, now: int, rowSize: seq<Value> -> nat)
      returns (inserts: seq<seq<Value>>, updates: map<seq<Column>, seq<seq<Value>>>, loadSize: nat)
    ensures IsSplit(owner, now, existing, items, rowSize, inserts, updates, loadSize)
  {
    inserts, updates, loadSize := [], map[], 0;
    NothingSplit(owner, now, existing, rowSize);
    var i := 0;
    while i < |items|
      invariant i <= |items|
      invariant IsSplit(owner, now, existing, items[..i], rowSize, inserts, updates, loadSize)
    {
      inserts, updates, loadSize :=
        AddRecord(owner, existing, items[..i], items[i], now, rowSize, inserts, updates, loadSize);
      OneMore(items, i);
      i := i + 1;
    }
    assert items[..i] == items;
  }

  lemma AllGrouped(owner: Owner, now: int, existing: set<string>, mutations: seq<Mutation>, items: seq<Item>,
                   groups: seq<seq<Item>>)
    requires WritesAll(owner, now, existing, mutations, groups) && DistinctIds(Flatten(groups))
    requires forall item :: item in Flatten(groups) <==> item in items
    ensures Represents(owner, now, existing, mutations, items)
  {
    assert Grouping(owner, now, existing, mutations, items, groups);
  }

  /** One insert mutation, if there is anything to insert. */
  method BufferInserts(ghost owner: Owner, ghost now: int, ghost existing: set<string>, ghost items: seq<Item>,
                       inserts: seq<seq<Value>>)
      returns (mutations: seq<Mutation>, ghost groups: seq<seq<Item>>)
    requires DistinctIds(items) && inserts == RowsFor(owner, now, existing, Going(items, existing, None))
    ensures WritesAll(owner, now, existing, mutations, groups) && DistinctIds(Flatten(groups))
    ensures forall item :: item in Flatten(groups) <==> item in items && item.id !in existing
  {
    mutations, groups := [], [];
    if |inserts| > 0 {
      var m := Mutation(true, INSERT_COLUMNS, inserts);
      AddGroup(owner, now, existing, items, None, mutations, groups, m);
      mutations := [m];
      groups := [Going(items, existing, None)];
      assert [] + mutations == mutations && [] + groups == groups;
    } else {
      assert Going(items, existing, None) == [];
    }
  }

  /** The inserts, then an update mutation for each list of columns, in any order. */
  method BufferMutations(ghost owner: Owner, ghost now: int, ghost existing: set<string>, ghost items: seq<Item>,
                         inserts: seq<seq<Value>>, updates: map<seq<Column>, seq<seq<Value>>>)
      returns (mutations: seq<Mutation>)
    requires DistinctIds(items) && Split(owner, now, existing, items, inserts, updates)
    ensures Represents(owner, now, existing, mutations, items)
  {
    ghost var groups: seq<seq<Item>>;
    mutations, groups := BufferInserts(owner, now, existing, items, inserts);
    var left := updates.Keys;
    while left != {}
      invariant left <= updates.Keys
      invariant WritesAll(owner, now, existing, mutations, groups) && DistinctIds(Flatten(groups))
      invariant forall item ::
        (item in Flatten(groups) <==> item in items && (item.id in existing ==> UpdateColumns(item) !in left))
      decreases left
    {
      var columns :| columns in left;
      var m := Mutation(false, columns, updates[columns]);
      AddGroup(owner, now, existing, items, Some(columns), mutations, groups, m);
      mutations := mutations + [m];
      groups := groups + [Going(items, existing, Some(columns))];
      left := left - {columns};
    }
    AllGrouped(owner, now, existing, mutations, items, groups);
  }

  /**
   * `post_bsos_async` after the touch: the mutations it buffers. They represent the records
   * whatever order the groups come in, so the database will make of `rows` what the fold of
   * upserts makes of it.
   */
  method PostBsos(owner: Owner, rows: Rows, items: seq<Item>, now: int, rowSize: seq<Value> -> nat)
      returns (r: Result<seq<Mutation>>)
    requires DistinctIds(items)
    ensures r.Err? <==> LoadSize(rowSize, RowsFor(owner, now, rows.Keys, items)) > 100_000_000
    ensures r.Err? ==> r.error == TooLarge
    ensures r.Ok? ==> Represents(owner, now, rows.Keys, r.value, items)
    ensures r.Ok? ==> ApplyAll(owner, rows, r.value) == Ok(PutAll(rows, now, items))
  {
    var existing := rows.Keys;
    var inserts, updates, loadSize := SplitRecords(owner, existing, items, now, rowSize);
    if loadSize > MAX_SPANNER_LOAD_SIZE {
      return Err(TooLarge);
    }
    var mutations := BufferMutations(owner, now, existing, items, inserts, updates);
    RepresentedIsPutAll(owner, rows, now, existing, mutations, items);
    r := Ok(mutations);
  }

  /** A row of a mutation has a value for each of its columns. */
  lemma ValuesMatchColumns(owner: Owner, now: int, existing: set<string>, mutations: seq<Mutation>, items: seq<Item>)
    requires Represents(owner, now, existing, mutations, items)
    ensures forall i, j | 0 <= i < |mutations| && 0 <= j < |mutations[i].values| ::
      |mutations[i].values[j]| == |mutations[i].columns|
  {}
}
