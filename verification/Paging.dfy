/**
 * Pages of a collection: one row more than the limit is fetched, and the next offset is sent to
 * the client as text (src/db/mysql/models.rs, src/db/spanner/models.rs, src/web/extractors.rs).
 */
module Paging {
  import opened Wrappers
  import opened Bso
  import opened Ceiling
  import opened Store
  import Collation
  import Decimal
  import ResultStream
  import Timestamp

  const U64_MAX: int := 0xffff_ffff_ffff_ffff

  /** The conditions of `BsoQueryParams`; limit and offset are separate. */
  datatype Filter = Filter(newer: Option<int>, older: Option<int>, ids: seq<string>)

  datatype Entry = Entry(id: string, row: Row)

  predicate Matches(b: Backend, f: Filter, now: int, e: Entry) {
    && e.row.expiry > now
    && (f.older.Some? ==> e.row.modified < f.older.value)
    && (f.newer.Some? ==> e.row.modified > f.newer.value)
    && (|f.ids| > 0 ==> exists i | 0 <= i < |f.ids| :: SameText(b, e.id, f.ids[i]))
  }

  /** The backends make the same of the ids of a query unless one is that of the row only under the collation. */
  lemma MatchesAlike(f: Filter, now: int, e: Entry)
    requires forall i | 0 <= i < |f.ids| && Collation.Same(e.id, f.ids[i]) :: e.id == f.ids[i]
    ensures Matches(Mysql, f, now, e) == Matches(Spanner, f, now, e)
  {}

  /** The WHERE clause over the rows of the collection in the order the query asks for. */
  function Select(b: Backend, entries: seq<Entry>, f: Filter, now: int): (r: seq<Entry>)
    ensures |r| <= |entries|
  {
    if |entries| == 0 then []
    else (if Matches(b, f, now, entries[0]) then [entries[0]] else []) + Select(b, entries[1..], f, now)
  }

  // ----- the order -----

  datatype Sorting = Unsorted | Newest | Oldest | Index

  /** ORDER BY: a row without a sortindex is after all that have one. */
  predicate Before(sort: Sorting, x: Row, y: Row) {
    match sort
    case Unsorted => true
    case Newest => x.modified >= y.modified
    case Oldest => x.modified <= y.modified
    case Index => y.sortindex.None? || (x.sortindex.Some? && x.sortindex.value >= y.sortindex.value)
  }

  predicate Ordered(sort: Sorting, list: seq<Entry>) {
    forall i, j | 0 <= i < j < |list| :: Before(sort, list[i].row, list[j].row)
  }

  lemma {:induction false} SelectKeepsOrder(b: Backend, sort: Sorting, entries: seq<Entry>, f: Filter, now: int)
    requires Ordered(sort, entries)
    ensures Ordered(sort, Select(b, entries, f, now))
  {
    if |entries| > 0 {
      SelectKeepsOrder(b, sort, entries[1..], f, now);
      SelectExactly(b, entries[1..], f, now);
      var rest := Select(b, entries[1..], f, now);
      forall j | 0 <= j < |rest|
        ensures Before(sort, entries[0].row, rest[j].row)
      {
        assert rest[j] in entries[1..];
      }
    }
  }

  lemma {:induction false} SelectExactly(b: Backend, entries: seq<Entry>, f: Filter, now: int)
    ensures forall e :: e in Select(b, entries, f, now) <==> e in entries && Matches(b, f, now, e)
  {
    if |entries| > 0 {
      SelectExactly(b, entries[1..], f, now);
      assert entries == [entries[0]] + entries[1..];
    }
  }

  /** LIMIT and OFFSET; no limit is written as a negative one. */
  function Window<T>(list: seq<T>, limit: int, offset: nat): seq<T> {
    if offset >= |list| then []
    else if limit < 0 || offset + limit >= |list| then list[offset..]
    else list[offset..offset + limit]
  }

  /** `Offset::to_string` and `Offset::from_str`. */
  function OffsetToString(offset: U64): string { Decimal.Print(offset) }

  function OffsetFromString(s: string): Option<int> { Decimal.Parse(s, 0, U64_MAX) }

  lemma OffsetRoundTrip(offset: U64)
    ensures OffsetFromString(OffsetToString(offset)) == Some(offset)
  {
    Decimal.ParsePrint(offset, 0, U64_MAX);
  }

  datatype Page<T> = Page(items: seq<T>, next: Option<string>)

  /** More rows than any table has; offsets reached by paging stay far from the end of an i64. */
  const MAX_ROWS: int := 0x4000_0000_0000_0000

  /** What a page is: the rows from the offset on, up to the limit, and where the next page begins if rows are left. */
  function PageOf<T>(list: seq<T>, limit: Option<U32>, offset: U64): Page<T>
    requires |list| <= MAX_ROWS
  {
    if limit.None? then Page(Window(list, -1, offset), None)
    else Page(Window(list, limit.value, offset),
              if offset + limit.value < |list| then Some(OffsetToString(offset + limit.value)) else None)
  }

  /** The extra row tells whether rows are left, and dropping it leaves the page. */
  lemma OneRowMore<T>(list: seq<T>, limit: nat, offset: nat)
    ensures var fetched := Window(list, limit + 1, offset);
      if offset + limit < |list| then |fetched| == limit + 1 && fetched[..limit] == Window(list, limit, offset)
      else |fetched| <= limit && fetched == Window(list, limit, offset)
  {}

  /** `get_bsos_sync`: the offset travels as an i64, and adding the limit gives the next one. */
  method GetBsosMysql(entries: seq<Entry>, f: Filter, now: int, limit: Option<U32>, offset: U64)
      returns (page: Result<Page<Entry>>)
    requires |entries| <= MAX_ROWS
    ensures page
         == if offset < 0x8000_0000_0000_0000 then Ok(PageOf(Select(Mysql, entries, f, now), limit, offset))
           else Err(Sql)
  {
    var signedLimit: int := if limit.Some? then limit.value else -1;
    var numericOffset := AsI64(offset);
    if numericOffset < 0 {
      return Err(Sql);
    }
    var selected := Select(Mysql, entries, f, now);
    var bsos := Window(selected, if signedLimit >= 0 then signedLimit + 1 else signedLimit, numericOffset);
    if limit.Some? { OneRowMore(selected, limit.value, offset); }
    var next: Option<string> := None;
    if signedLimit >= 0 && |bsos| > signedLimit {
      bsos := bsos[..|bsos| - 1];
      next := Some(Decimal.Print(signedLimit + numericOffset));
    }
    page := Ok(Page(bsos, next));
  }

  // ----- rows from Spanner's stream -----

  /** bso_id, sortindex, payload, modified, expiry. */
  const BSO_FIELDS: seq<ResultStream.TypeCode> := [
    ResultStream.String, ResultStream.Int64, ResultStream.String, ResultStream.Timestamp, ResultStream.Timestamp]

  function TextOf(v: ResultStream.Value): string { if v.Text? then v.text else "" }

  /** `SyncTimestamp::from_rfc3339`; `millis` parses the text. */
  function TickOf(v: ResultStream.Value, millis: string -> Option<int>): Option<int> {
    var ms := millis(TextOf(v));
    if ms.Some? && ms.value >= 0 then Some(Timestamp.FromMilliseconds(ms.value)) else None
  }

  /** `bso_from_row`, which panics on a row that is too short. */
  function BsoFromRow(row: ResultStream.Row, millis: string -> Option<int>): Result<Entry> {
    if |row| < 5 then Err(Internal)
    else
      var modified, expiry := TickOf(row[3], millis), TickOf(row[4], millis);
      var sortindex := Decimal.Parse(TextOf(row[1]), -0x8000_0000, 0x7fff_ffff);
      if modified.None? || expiry.None? || (!row[1].Null? && sortindex.None?) then Err(Integrity)
      else
        Ok(Entry(TextOf(row[0]),
                 Row(if row[1].Null? then None else Some(sortindex.value), TextOf(row[2]),
                     modified.value, expiry.value)))
  }

  /** The times of a stored row are ticks. */
  predicate InTicks(row: Row) { row.modified >= 0 && row.modified % 10 == 0 && row.expiry >= 0 && row.expiry % 10 == 0 }

  predicate AllInTicks(list: seq<Entry>) { forall i | 0 <= i < |list| :: InTicks(list[i].row) }

  /** A row of the answer; `text` is how Spanner writes a timestamp. */
  function ToRow(e: Entry, text: int -> string): (row: ResultStream.Row)
    ensures |row| == 5
  {
    [ResultStream.Text(e.id),
     if e.row.sortindex.Some? then ResultStream.Text(Decimal.Print(e.row.sortindex.value)) else ResultStream.Null,
     ResultStream.Text(e.row.payload),
     ResultStream.Text(text(e.row.modified)),
     ResultStream.Text(text(e.row.expiry))]
  }

  function ToTable(list: seq<Entry>, text: int -> string): (table: seq<ResultStream.Row>)
    ensures |table| == |list| && ResultStream.Rectangular(table, 5)
  {
    seq(|list|, i requires 0 <= i < |list| => ToRow(list[i], text))
  }

  ghost predicate Reads(millis: string -> Option<int>, text: int -> string) { forall t :: millis(text(t)) == Some(t) }

  lemma RowRoundTrip(e: Entry, millis: string -> Option<int>, text: int -> string)
    requires Reads(millis, text) && InTicks(e.row)
    ensures BsoFromRow(ToRow(e, text), millis) == Ok(e)
  {
    if e.row.sortindex.Some? { Decimal.ParsePrint(e.row.sortindex.value, -0x8000_0000, 0x7fff_ffff); }
    assert millis(text(e.row.modified)) == Some(e.row.modified) && millis(text(e.row.expiry)) == Some(e.row.expiry);
  }

  /** The rows that are left in a stream; the first error ends them. */
  function Collected(st: ResultStream.State, millis: string -> Option<int>): Result<seq<Entry>>
    decreases |st.sets|, |st.rows|
  {
    var (st', row) := ResultStream.Next(st);
    if row.None? then Ok([])
    else if row.value.Err? then Err(row.value.error)
    else
      var bso := BsoFromRow(row.value.value, millis);
      if bso.Err? then Err(bso.error) else After([bso.value], Collected(st', millis))
  }

  function After(rows: seq<Entry>, rest: Result<seq<Entry>>): Result<seq<Entry>> {
    if rest.Err? then rest else Ok(rows + rest.value)
  }

  lemma AfterNothing(rest: Result<seq<Entry>>)
    ensures After([], rest) == rest
  {
    if rest.Ok? { assert [] + rest.value == rest.value; }
  }

  lemma AfterBoth(rows: seq<Entry>, more: seq<Entry>, rest: Result<seq<Entry>>)
    ensures After(rows, After(more, rest)) == After(rows + more, rest)
  {
    if rest.Ok? { assert rows + (more + rest.value) == rows + more + rest.value; }
  }

  lemma CollectedNext(st: ResultStream.State, millis: string -> Option<int>, rows: seq<Entry>)
    ensures var (st', row) := ResultStream.Next(st);
      After(rows, Collected(st, millis)) ==
      if row.None? then Ok(rows)
      else if row.value.Err? then Err(row.value.error)
      else
        var bso := BsoFromRow(row.value.value, millis);
        if bso.Err? then Err(bso.error) else After(rows + [bso.value], Collected(st', millis))
  {
    var (st', row) := ResultStream.Next(st);
    if row.None? {
      assert rows + [] == rows;
    } else if row.value.Ok? && BsoFromRow(row.value.value, millis).Ok? {
      AfterBoth(rows, [BsoFromRow(row.value.value, millis).value], Collected(st', millis));
    }
  }

  /** The loop over `next_async` that turns the stream into a vector. */
  method Collect(streaming: ResultStream.StreamedResultSet, millis: string -> Option<int>)
      returns (bsos: Result<seq<Entry>>)
    modifies streaming
    ensures bsos == Collected(old(streaming.Abstract()), millis)
  {
    var rows: seq<Entry> := [];
    AfterNothing(Collected(streaming.Abstract(), millis));
    while true
      invariant After(rows, Collected(streaming.Abstract(), millis)) == Collected(old(streaming.Abstract()), millis)
      decreases |streaming.sets|, |streaming.rows|
    {
      ghost var before := streaming.Abstract();
      CollectedNext(before, millis, rows);
      var row := streaming.NextAsync();
      if row.None? { return Ok(rows); }
      if row.value.Err? { return Err(row.value.error); }
      var bso := BsoFromRow(row.value.value, millis);
      if bso.Err? { return Err(bso.error); }
      rows := rows + [bso.value];
    }
  }

  /** However the answer is cut, the rows that are collected are those of the answer. */
  lemma {:induction false} CollectedTable(st: ResultStream.State, millis: string -> Option<int>, text: int -> string,
                                          vals: seq<ResultStream.Value>, list: seq<Entry>)
    requires ResultStream.Delivers(st, BSO_FIELDS, vals, ToTable(list, text))
    requires Reads(millis, text) && AllInTicks(list)
    ensures Collected(st, millis) == Ok(list)
    decreases |list|
  {
    var more := ResultStream.NextDelivers(st, BSO_FIELDS, vals, ToTable(list, text));
    if |list| > 0 {
      RowRoundTrip(list[0], millis, text);
      assert ToTable(list, text)[1..] == ToTable(list[1..], text);
      CollectedTable(ResultStream.Next(st).0, millis, text, more, list[1..]);
      assert [list[0]] + list[1..] == list;
    }
  }

  lemma CollectedAnswer(sets: seq<Result<ResultStream.PartialSet>>, millis: string -> Option<int>, text: int -> string,
                        list: seq<Entry>)
    requires |sets| > 0 && sets[0].Ok? && sets[0].value.metadata == Some(BSO_FIELDS)
    requires Reads(millis, text) && AllInTicks(list)
    requires ResultStream.Cutting(ResultStream.Flatten(ToTable(list, text)), sets)
    ensures Collected(ResultStream.Initial(sets), millis) == Ok(list)
  {
    var vals := ResultStream.Flatten(ToTable(list, text));
    AllCutsMergeable(0, sets);
    ResultStream.ThreeParts([], [], vals);
    CollectedTable(ResultStream.Initial(sets), millis, text, vals, list);
  }

  lemma SelectInTicks(entries: seq<Entry>, f: Filter, now: int)
    requires AllInTicks(entries)
    ensures AllInTicks(Select(Spanner, entries, f, now))
  {}

  /** What the query asks Spanner for. */
  function Answer(selected: seq<Entry>, limit: Option<U32>, offset: U64): seq<Entry>
    requires offset < 0x8000_0000_0000_0000
  {
    Window(selected, if limit.Some? then limit.value + 1 else 0x7fff_ffff_ffff_ffff - offset, offset)
  }

  lemma {:induction false} AllCutsMergeable(col: nat, sets: seq<Result<ResultStream.PartialSet>>)
    requires col < |BSO_FIELDS|
    ensures ResultStream.CutsMergeable(BSO_FIELDS, col, sets)
    decreases |sets|
  {
    if |sets| > 0 && sets[0].Ok? {
      var partial := sets[0].value;
      var n := |partial.values|;
      var next := if n == 0 then col else ResultStream.Column(col, if partial.chunked then n - 1 else n, |BSO_FIELDS|);
      AllCutsMergeable(next, sets[1..]);
    }
  }

  /**
   * `get_bsos_async` and `encode_next_offset`: rows are taken from the stream one by one, and counted
   * for the next offset. It makes no difference how Spanner cuts the answer.
   */
  method GetBsosSpanner(entries: seq<Entry>, f: Filter, now: int, limit: Option<U32>, offset: U64,
                        sets: seq<Result<ResultStream.PartialSet>>,
                        millis: string -> Option<int>, ghost text: int -> string)
      returns (page: Result<Page<Entry>>)
    requires |entries| <= MAX_ROWS && AllInTicks(entries) && Reads(millis, text)
    requires |sets| > 0 && sets[0].Ok? && sets[0].value.metadata == Some(BSO_FIELDS)
    requires offset < 0x8000_0000_0000_0000 ==>
      var answer := Answer(Select(Spanner, entries, f, now), limit, offset);
      ResultStream.Cutting(ResultStream.Flatten(ToTable(answer, text)), sets)
    ensures page
         == if offset < 0x8000_0000_0000_0000 then Ok(PageOf(Select(Spanner, entries, f, now), limit, offset))
           else Err(Sql)
  {
    if AsI64(offset) < 0 {
      return Err(Sql);
    }
    var streaming := new ResultStream.StreamedResultSet(sets);
    var collected := Collect(streaming, millis);
    ghost var selected := Select(Spanner, entries, f, now);
    SelectInTicks(entries, f, now);
    CollectedAnswer(sets, millis, text, Answer(selected, limit, offset));
    match collected {
      case Err(e) => page := Err(e);
      case Ok(rows) =>
        var p := CutPage(rows, limit, offset, selected);
        page := Ok(p);
    }
  }

  /** The extra row is dropped, and the others are counted. */
  method CutPage(rows: seq<Entry>, limit: Option<U32>, offset: U64, ghost selected: seq<Entry>)
      returns (page: Page<Entry>)
    requires |selected| <= MAX_ROWS && offset < 0x8000_0000_0000_0000 && rows == Answer(selected, limit, offset)
    ensures page == PageOf(selected, limit, offset)
  {
    var bsos := rows;
    if limit.Some? { OneRowMore(selected, limit.value, offset); }
    var next: Option<string> := None;
    if limit.Some? && |bsos| > limit.value {
      bsos := bsos[..|bsos| - 1];
      next := Some(OffsetToString(offset + |bsos|));
    }
    page := Page(bsos, next);
  }

  /** The pages a client gets by following the next offset it is given, beginning at `offset`; None if it never ends. */
  function Follow<T>(list: seq<T>, limit: U32, offset: U64): Option<seq<seq<T>>>
    requires |list| <= MAX_ROWS
    decreases |list| - offset
  {
    var page := PageOf(list, Some(limit), offset);
    if page.next.None? then Some([page.items])
    else
      var next := OffsetFromString(page.next.value);
      if next.None? || !(offset < next.value <= |list|) then None
      else
        var rest := Follow(list, limit, next.value);
        if rest.None? then None else Some([page.items] + rest.value)
  }

  function Join<T>(pages: seq<seq<T>>): seq<T> {
    if |pages| == 0 then [] else pages[0] + Join(pages[1..])
  }

  lemma JoinMore<T>(page: seq<T>, rest: seq<seq<T>>)
    ensures Join([page] + rest) == page + Join(rest)
  {}

  lemma CutAt<T>(list: seq<T>, i: nat, j: nat)
    requires i <= j <= |list|
    ensures list[i..] == list[i..j] + list[j..]
  {}

  lemma FollowMore<T>(list: seq<T>, limit: U32, offset: U64)
    requires limit >= 1 && offset + limit < |list| <= MAX_ROWS
    ensures var rest := Follow(list, limit, offset + limit);
      Follow(list, limit, offset) == if rest.None? then None else Some([Window(list, limit, offset)] + rest.value)
  {
    OffsetRoundTrip(offset + limit);
  }

  lemma FollowLast<T>(list: seq<T>, limit: U32, offset: U64)
    requires limit >= 1 && offset <= |list| <= MAX_ROWS && offset + limit >= |list|
    ensures Follow(list, limit, offset) == Some([list[offset..]]) && Join([list[offset..]]) == list[offset..]
  {
    JoinMore(list[offset..], []);
    assert [list[offset..]] + [] == [list[offset..]];
  }

  lemma {:induction false} FollowJoins<T>(list: seq<T>, limit: U32, offset: U64)
    requires limit >= 1 && offset <= |list| <= MAX_ROWS
    ensures Follow(list, limit, offset).Some? && Join(Follow(list, limit, offset).value) == list[offset..]
    decreases |list| - offset
  {
    if offset + limit < |list| {
      FollowMore(list, limit, offset);
      FollowJoins(list, limit, offset + limit);
      CutAt(list, offset, offset + limit);
      JoinMore(list[offset..offset + limit], Follow(list, limit, offset + limit).value);
    } else {
      FollowLast(list, limit, offset);
    }
  }

  function PageCount(rows: nat, limit: nat): nat
    requires limit >= 1
  {
    if rows == 0 then 1 else CeilDiv(rows, limit)
  }

  lemma {:induction false} FollowCounts<T>(list: seq<T>, limit: U32, offset: U64)
    requires limit >= 1 && offset <= |list| <= MAX_ROWS
    ensures Follow(list, limit, offset).Some?
    ensures |Follow(list, limit, offset).value| == PageCount(|list| - offset, limit)
    decreases |list| - offset
  {
    if offset + limit < |list| {
      FollowMore(list, limit, offset);
      FollowCounts(list, limit, offset + limit);
    } else {
      FollowLast(list, limit, offset);
    }
  }

  /**
   * With a limit of at least one, following the offsets from the beginning ends, after as many
   * pages as it takes, and the pages put together are the whole list.
   */
  lemma PaginationIsComplete<T>(list: seq<T>, limit: U32)
    requires limit >= 1 && |list| <= MAX_ROWS
    ensures var pages := Follow(list, limit, 0);
      pages.Some? && Join(pages.value) == list
      && |pages.value| == (if |list| == 0 then 1 else CeilDiv(|list|, limit))
  {
    FollowJoins(list, limit, 0);
    FollowCounts(list, limit, 0);
    assert list[0..] == list;
  }

  /** Following the offsets ends exactly if the limit is not zero or there is nothing to fetch. */
  lemma PaginationEndsExactly<T>(list: seq<T>, limit: U32)
    requires |list| <= MAX_ROWS
    ensures Follow(list, limit, 0).Some? <==> limit >= 1 || |list| == 0
  {
    if limit >= 1 {
      PaginationIsComplete(list, limit);
    } else {
      OffsetRoundTrip(0);
    }
  }

  /**
   * Read page by page, a collection shows every row that matches the query, and no other, in the
   * order that was asked for: not expired, modified after `newer` and before `older`, and of one of
   * the ids if there are any.
   */
  lemma PagesShowExactlyTheMatches(b: Backend, sort: Sorting, entries: seq<Entry>, f: Filter, now: int, limit: U32)
    requires limit >= 1 && |entries| <= MAX_ROWS && Ordered(sort, entries)
    ensures var pages := Follow(Select(b, entries, f, now), limit, 0);
      && pages.Some? && Ordered(sort, Join(pages.value))
      && forall e :: e in Join(pages.value) <==>
           && e in entries && now < e.row.expiry
           && (f.newer.Some? ==> f.newer.value < e.row.modified) && (f.older.Some? ==> e.row.modified < f.older.value)
           && (|f.ids| > 0 ==> exists i | 0 <= i < |f.ids| :: SameText(b, e.id, f.ids[i]))
  {
    PaginationIsComplete(Select(b, entries, f, now), limit);
    SelectExactly(b, entries, f, now);
    SelectKeepsOrder(b, sort, entries, f, now);
  }

  /** The row of a list in some order is not after the ones that come later. */
  lemma OrderedAsAsked(sort: Sorting, list: seq<Entry>, i: nat, j: nat)
    requires Ordered(sort, list) && i < j < |list|
    ensures var x, y := list[i].row, list[j].row;
      && (sort.Newest? ==> y.modified <= x.modified)
      && (sort.Oldest? ==> x.modified <= y.modified)
      && (sort.Index? && y.sortindex.Some? ==> x.sortindex.Some? && y.sortindex.value <= x.sortindex.value)
  {}

  /**
   * A client that has read what is newer than a time, and then asks for what is older than the next
   * millisecond, has got every row exactly once.
   */
  lemma NewerAndOlderPart(b: Backend, entries: seq<Entry>, now: int, time: int, e: Entry)
    ensures var all := Select(b, entries, Filter(None, None, []), now);
      var newer := Select(b, entries, Filter(Some(time), None, []), now);
      var older := Select(b, entries, Filter(None, Some(time + 1), []), now);
      (e in all <==> e in newer || e in older) && !(e in newer && e in older)
  {
    SelectExactly(b, entries, Filter(None, None, []), now);
    SelectExactly(b, entries, Filter(Some(time), None, []), now);
    SelectExactly(b, entries, Filter(None, Some(time + 1), []), now);
  }
}
