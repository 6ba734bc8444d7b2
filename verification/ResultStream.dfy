/**
 * Reassembly of rows from Spanner's partial result sets (src/db/spanner/support.rs): a row may be
 * spread over several sets, and a value may be cut in the middle of its text.
 */
module ResultStream {
  import opened Wrappers

  /** A protobuf value, as far as the reassembler tells values apart. */
  datatype Value = Null | Text(text: string) | Other(tag: int)

  datatype TypeCode = Bytes | Date | Int64 | String | Timestamp | Array | Float64 | Struct | Bool | Unspecified

  type Row = seq<Value>

  datatype PartialSet = PartialSet(metadata: Option<seq<TypeCode>>, values: seq<Value>, chunked: bool)

  /** The fields of `StreamedResultSetAsync`; `sets` is what the stream has yet to yield. */
  datatype State = State(
    sets: seq<Result<PartialSet>>,
    metadata: Option<seq<TypeCode>>,
    rows: seq<Row>,
    currentRow: seq<Value>,
    pending: Option<Value>)

  predicate Mergeable(code: TypeCode) {
    code.Bytes? || code.Date? || code.Int64? || code.String? || code.Timestamp?
  }

  /** `merge_by_type`, `merge_string` and `unsupported_merge`. */
  function MergeByType(lhs: Value, rhs: Value, code: TypeCode): Result<Value> {
    if !Mergeable(code) then Err(Internal)
    else if !lhs.Text? || !rhs.Text? then Err(Internal)
    else Ok(Text(lhs.text + rhs.text))
  }

  function Fields(st: State): seq<TypeCode> { if st.metadata.Some? then st.metadata.value else [] }

  /** `consume_values`, one value at a time. */
  function Push(rows: seq<Row>, current: seq<Value>, values: seq<Value>, width: nat): (seq<Row>, seq<Value>)
    decreases |values|
  {
    if |values| == 0 then (rows, current)
    else
      var row := current + [values[0]];
      if |row| == width then Push(rows + [row], [], values[1..], width) else Push(rows, row, values[1..], width)
  }

  /** `consume_next`: false when the stream is finished. */
  function ConsumeNext(st: State): (State, Result<bool>) {
    if |st.sets| == 0 then (st, Ok(false))
    else
      var st1 := st.(sets := st.sets[1..]);
      if st.sets[0].Err? then (st1, Err(st.sets[0].error))
      else
        var partial := st.sets[0].value;
        var st2 := if st.metadata.None? then st1.(metadata := partial.metadata) else st1;
        if |partial.values| == 0 then (st2, Ok(true))
        else
          var st3 := st2.(pending := None);
          var i := |st.currentRow|;
          if st.pending.Some? && |Fields(st2)| <= i then (st3, Err(Integrity))
          else
            var first := if st.pending.Some?
              then MergeByType(st.pending.value, partial.values[0], Fields(st2)[i]) else Ok(partial.values[0]);
            if first.Err? then (st3, Err(first.error))
            else
              var values := partial.values[0 := first.value];
              var kept := if partial.chunked then values[..|values| - 1] else values;
              var (rows, current) := Push(st.rows, st.currentRow, kept, |Fields(st2)|);
              (State(st2.sets, st2.metadata, rows, current,
                     if partial.chunked then Some(values[|values| - 1]) else None),
               Ok(true))
  }

  /** `next_async`. */
  function Next(st: State): (r: (State, Option<Result<Row>>))
    ensures r.1.Some? ==> |r.0.sets| < |st.sets| || (|r.0.sets| == |st.sets| && |r.0.rows| < |st.rows|)
    decreases |st.sets|
  {
    if |st.rows| > 0 then (st.(rows := st.rows[1..]), Some(Ok(st.rows[0])))
    else
      var (st', more) := ConsumeNext(st);
      if more.Err? then (st', Some(Err(more.error)))
      else if !more.value then (st', None)
      else Next(st')
  }

  /** `one_or_none`. */
  function OneOrNone(st: State): (State, Result<Option<Row>>) {
    var (st1, first) := Next(st);
    if first.None? then (st1, Ok(None))
    else
      var (st2, second) := Next(st1);
      if second.Some? then (st2, Err(Internal))
      else if first.value.Err? then (st2, Err(first.value.error))
      else (st2, Ok(Some(first.value.value)))
  }

  function Initial(sets: seq<Result<PartialSet>>): State { State(sets, None, [], [], None) }

  // ----- the class -----

  class StreamedResultSet {
    var sets: seq<Result<PartialSet>>
    var metadata: Option<seq<TypeCode>>
    var rows: seq<Row>
    var currentRow: seq<Value>
    var pendingChunk: Option<Value>

    function Abstract(): State
      reads this
    {
      State(sets, metadata, rows, currentRow, pendingChunk)
    }

    constructor (stream: seq<Result<PartialSet>>)
      ensures Abstract() == Initial(stream)
    {
      sets, metadata, rows, currentRow, pendingChunk := stream, None, [], [], None;
    }

    method ConsumeValues(values: seq<Value>)
      modifies this`rows, this`currentRow
      ensures (rows, currentRow)
           == Push(old(rows), old(currentRow), values, |Fields(old(Abstract()))|)
    {
      var width := |Fields(Abstract())|;
      var i := 0;
      while i < |values|
        invariant i <= |values|
        invariant Push(rows, currentRow, values[i..], width) == Push(old(rows), old(currentRow), values, width)
      {
        assert values[i..][1..] == values[i + 1..];
        currentRow := currentRow + [values[i]];
        if |currentRow| == width {
          rows := rows + [currentRow];
          currentRow := [];
        }
        i := i + 1;
      }
    }

    method ConsumeNextSet() returns (more: Result<bool>)
      modifies this
      ensures (Abstract(), more) == ConsumeNext(old(Abstract()))
    {
      if |sets| == 0 {
        return Ok(false);
      }
      var result := sets[0];
      sets := sets[1..];
      if result.Err? {
        return Err(result.error);
      }
      var partial := result.value;
      if metadata.None? && partial.metadata.Some? {
        metadata := partial.metadata;
      }
      var values := partial.values;
      if |values| == 0 {
        return Ok(true);
      }
      if pendingChunk.Some? {
        var pending := pendingChunk.value;
        pendingChunk := None;
        var fields := Fields(Abstract());
        if |fields| <= |currentRow| {
          return Err(Integrity);
        }
        var merged := MergeByType(pending, values[0], fields[|currentRow|]);
        if merged.Err? {
          return Err(merged.error);
        }
        values := values[0 := merged.value];
      } else {
        assert values == values[0 := values[0]];
      }
      if partial.chunked {
        pendingChunk := Some(values[|values| - 1]);
        values := values[..|values| - 1];
      }
      ConsumeValues(values);
      return Ok(true);
    }

    method NextAsync() returns (row: Option<Result<Row>>)
      modifies this
      ensures (Abstract(), row) == Next(old(Abstract()))
    {
      while |rows| == 0
        invariant Next(Abstract()) == Next(old(Abstract()))
        decreases |sets|, |rows| == 0
      {
        var more := ConsumeNextSet();
        match more {
          case Ok(true) =>
          case Ok(false) => return None;
          case Err(e) => return Some(Err(e));
        }
      }
      row := Some(Ok(rows[0]));
      rows := rows[1..];
    }

    method OneOrNoneAsync() returns (result: Result<Option<Row>>)
      modifies this
      ensures (Abstract(), result) == OneOrNone(old(Abstract()))
    {
      var first := NextAsync();
      if first.None? {
        return Ok(None);
      }
      var second := NextAsync();
      if second.Some? {
        return Err(Internal);
      }
      result := if first.value.Err? then Err(first.value.error) else Ok(Some(first.value.value));
    }
  }

  // ----- what a stream of partial sets stands for -----

  function Flatten(table: seq<Row>): seq<Value> {
    if |table| == 0 then [] else table[0] + Flatten(table[1..])
  }

  /**
   * `sets` is a cutting of the values `vals`: the sets hold them in order, and a chunked set holds
   * only the beginning of the text of its last value.
   */
  predicate Cutting(vals: seq<Value>, sets: seq<Result<PartialSet>>)
    decreases |sets|
  {
    if |sets| == 0 then |vals| == 0
    else
      sets[0].Ok? &&
      var partial := sets[0].value;
      var n := |partial.values|;
      if n == 0 then Cutting(vals, sets[1..])
      else if !partial.chunked then partial.values <= vals && Cutting(vals[n..], sets[1..])
      else
        n <= |vals| && partial.values[..n - 1] == vals[..n - 1]
        && Begins(partial.values[n - 1], vals[n - 1])
        && Cutting([Remainder(partial.values[n - 1], vals[n - 1])] + vals[n..], sets[1..])
  }

  predicate Begins(part: Value, whole: Value) { part.Text? && whole.Text? && part.text <= whole.text }

  function Remainder(part: Value, whole: Value): (rest: Value)
    requires Begins(part, whole)
    ensures rest.Text? && part.text + rest.text == whole.text
  {
    Text(whole.text[|part.text|..])
  }

  predicate CuttingAfter(pending: Option<Value>, vals: seq<Value>, sets: seq<Result<PartialSet>>) {
    if pending.None? then Cutting(vals, sets)
    else
      |vals| > 0 && Begins(pending.value, vals[0])
      && Cutting([Remainder(pending.value, vals[0])] + vals[1..], sets)
  }

  predicate Rectangular(table: seq<Row>, width: nat) { forall i | 0 <= i < |table| :: |table[i]| == width }

  /** The column of the value that comes `n` values after one of column `col`. */
  function Column(col: nat, n: nat, width: nat): (r: nat)
    requires col < width
    ensures r < width
    decreases n
  {
    if n == 0 then col else Column(if col + 1 == width then 0 else col + 1, n - 1, width)
  }

  /** Values are only cut in columns whose type can be merged; the first set begins in column `col`. */
  predicate CutsMergeable(fields: seq<TypeCode>, col: nat, sets: seq<Result<PartialSet>>)
    requires col < |fields|
    decreases |sets|
  {
    |sets| > 0 && sets[0].Ok? ==>
      var partial := sets[0].value;
      var n := |partial.values|;
      if n == 0 then CutsMergeable(fields, col, sets[1..])
      else
        var next := Column(col, if partial.chunked then n - 1 else n, |fields|);
        (partial.chunked ==> Mergeable(fields[next])) && CutsMergeable(fields, next, sets[1..])
  }

  /** What is left of `table` is still in `st` and its stream, with `vals` not yet put into rows. */
  predicate Carries(st: State, fields: seq<TypeCode>, vals: seq<Value>, table: seq<Row>) {
    && |fields| > 0
    && (st.metadata == Some(fields)
        || (st.metadata.None? && st.pending.None? && |st.sets| > 0 && st.sets[0].Ok?
            && st.sets[0].value.metadata == Some(fields)))
    && |st.currentRow| < |fields|
    && CuttingAfter(st.pending, vals, st.sets)
    && Rectangular(st.rows, |fields|)
    && Rectangular(table, |fields|)
    && Flatten(table) == Flatten(st.rows) + st.currentRow + vals
  }

  /** The same of the value in progress and those to come. */
  predicate Merges(st: State, fields: seq<TypeCode>)
    requires |st.currentRow| < |fields|
  {
    (st.pending.Some? ==> Mergeable(fields[|st.currentRow|])) && CutsMergeable(fields, |st.currentRow|, st.sets)
  }

  /** .. and can come out. */
  predicate Delivers(st: State, fields: seq<TypeCode>, vals: seq<Value>, table: seq<Row>) {
    Carries(st, fields, vals, table) && Merges(st, fields)
  }

  lemma ThreeParts(a: seq<Value>, b: seq<Value>, c: seq<Value>)
    ensures a + (b + c) == a + b + c
  {}

  lemma {:induction false} FlattenConcat(a: seq<Row>, b: seq<Row>)
    ensures Flatten(a + b) == Flatten(a) + Flatten(b)
  {
    if |a| == 0 {
      assert a + b == b;
    } else {
      FlattenConcat(a[1..], b);
      assert (a + b)[1..] == a[1..] + b;
      ThreeParts(a[0], Flatten(a[1..]), Flatten(b));
    }
  }

  lemma {:induction false} FlattenLength(table: seq<Row>, width: nat)
    requires Rectangular(table, width)
    ensures |Flatten(table)| == |table| * width
  {
    if |table| > 0 {
      FlattenLength(table[1..], width);
      assert |table| * width == width + (|table| - 1) * width;
    }
  }

  lemma {:induction false} PushKeepsValues(rows: seq<Row>, current: seq<Value>, values: seq<Value>, width: nat)
    requires |current| < width && Rectangular(rows, width)
    ensures var (rows', current') := Push(rows, current, values, width);
      Rectangular(rows', width) && |current'| == Column(|current|, |values|, width)
      && Flatten(rows') + current' == Flatten(rows) + current + values
    decreases |values|
  {
    if |values| > 0 {
      var row := current + [values[0]];
      assert current + values == row + values[1..];
      if |row| == width {
        PushKeepsValues(rows + [row], [], values[1..], width);
        FlattenConcat(rows, [row]);
        assert Flatten([row]) == row by { assert [row][1..] == []; }
        assert Flatten(rows + [row]) + [] + values[1..] == Flatten(rows) + current + values;
      } else {
        PushKeepsValues(rows, row, values[1..], width);
        assert Flatten(rows) + row + values[1..] == Flatten(rows) + current + values;
      }
    } else {
      assert Flatten(rows) + current + values == Flatten(rows) + current;
    }
  }

  /** The values of a set are the first of `vals`, but for a last one that is cut; `sets` are a cutting of the rest. */
  predicate Adds(values: seq<Value>, chunked: bool, vals: seq<Value>, sets: seq<Result<PartialSet>>) {
    var n := |values|;
    0 < n <= |vals| &&
    if chunked then values[..n - 1] == vals[..n - 1] && CuttingAfter(Some(values[n - 1]), vals[n - 1..], sets)
    else values == vals[..n] && Cutting(vals[n..], sets)
  }

  lemma CuttingAdds(vals: seq<Value>, sets: seq<Result<PartialSet>>)
    requires Cutting(vals, sets) && |sets| > 0 && |sets[0].value.values| > 0
    ensures Adds(sets[0].value.values, sets[0].value.chunked, vals, sets[1..])
  {}

  lemma ReplaceFirst(vals: seq<Value>, rest: Value, n: nat)
    requires 0 < n <= |vals|
    ensures ([rest] + vals[1..])[n..] == vals[n..]
    ensures ([rest] + vals[1..])[..n][0 := vals[0]] == vals[..n]
    ensures n > 1 ==> ([rest] + vals[1..])[n - 1..] == vals[n - 1..]
  {}

  lemma MergeOnly(pending: Value, part: Value, vals: seq<Value>, sets: seq<Result<PartialSet>>)
    requires |vals| > 0 && Begins(pending, vals[0])
    requires Adds([part], true, [Remainder(pending, vals[0])] + vals[1..], sets)
    ensures part.Text? && Adds([Text(pending.text + part.text)], true, vals, sets)
  {}

  lemma FirstIsRest(values: seq<Value>, chunked: bool, vals: seq<Value>, sets: seq<Result<PartialSet>>)
    requires Adds(values, chunked, vals, sets) && (chunked ==> |values| > 1)
    ensures values[0] == vals[0]
  {}

  lemma MergeFirst(pending: Value, values: seq<Value>, chunked: bool, vals: seq<Value>, sets: seq<Result<PartialSet>>)
    requires |vals| > 0 && Begins(pending, vals[0]) && (chunked ==> |values| > 1)
    requires Adds(values, chunked, [Remainder(pending, vals[0])] + vals[1..], sets)
    ensures Adds(values[0 := vals[0]], chunked, vals, sets)
    ensures values[0].Text? && vals[0] == Text(pending.text + values[0].text)
  {
    var rest, n := Remainder(pending, vals[0]), |values|;
    FirstIsRest(values, chunked, [rest] + vals[1..], sets);
    ReplaceFirst(vals, rest, n);
    if chunked {
      ReplaceFirst(vals, rest, n - 1);
      assert values[0 := vals[0]][..n - 1] == values[..n - 1][0 := vals[0]];
    }
  }

  /** The values a set adds, the pending beginning put back in front of the first one. */
  lemma MergedValues(pending: Option<Value>, vals: seq<Value>, sets: seq<Result<PartialSet>>, code: TypeCode)
    requires CuttingAfter(pending, vals, sets) && |sets| > 0 && |sets[0].value.values| > 0
    requires pending.Some? ==> Mergeable(code)
    ensures sets[0].Ok?
    ensures var partial := sets[0].value;
      var first := if pending.Some? then MergeByType(pending.value, partial.values[0], code) else Ok(partial.values[0]);
      first.Ok? && Adds(partial.values[0 := first.value], partial.chunked, vals, sets[1..])
  {
    var partial := sets[0].value;
    if pending.None? {
      CuttingAdds(vals, sets);
      assert partial.values[0 := partial.values[0]] == partial.values;
    } else {
      CuttingAdds([Remainder(pending.value, vals[0])] + vals[1..], sets);
      if partial.chunked && |partial.values| == 1 {
        assert partial.values == [partial.values[0]];
        MergeOnly(pending.value, partial.values[0], vals, sets[1..]);
      } else {
        MergeFirst(pending.value, partial.values, partial.chunked, vals, sets[1..]);
      }
    }
  }

  lemma SplitRest(front: seq<Value>, vals: seq<Value>, keep: nat)
    requires keep <= |vals|
    ensures front + vals == front + vals[..keep] + vals[keep..]
  {}

  /** The set's values join the row in progress; the table stays the same. */
  lemma ValuesJoin(rows: seq<Row>, current: seq<Value>, vals: seq<Value>, keep: nat, table: seq<Row>, width: nat)
    requires |current| < width && Rectangular(rows, width) && keep <= |vals|
    requires Flatten(table) == Flatten(rows) + current + vals
    ensures var (rows', current') := Push(rows, current, vals[..keep], width);
      && Rectangular(rows', width) && |current'| == Column(|current|, keep, width)
      && Flatten(table) == Flatten(rows') + current' + vals[keep..]
  {
    PushKeepsValues(rows, current, vals[..keep], width);
    SplitRest(Flatten(rows) + current, vals, keep);
  }

  /** What `consume_next` does with a set that holds values, when the values can be merged. */
  lemma ConsumeValuesOfSet(st: State, fields: seq<TypeCode>, first: Value)
    requires |st.sets| > 0 && st.sets[0].Ok? && |st.sets[0].value.values| > 0
    requires st.metadata == Some(fields) || (st.metadata.None? && st.sets[0].value.metadata == Some(fields))
    requires |st.currentRow| < |fields|
    requires st.pending.Some? ==>
      MergeByType(st.pending.value, st.sets[0].value.values[0], fields[|st.currentRow|]) == Ok(first)
    requires st.pending.None? ==> first == st.sets[0].value.values[0]
    ensures var partial := st.sets[0].value;
      var values := partial.values[0 := first];
      var n := |values|;
      var (rows, current) :=
        Push(st.rows, st.currentRow, if partial.chunked then values[..n - 1] else values, |fields|);
      ConsumeNext(st) == (State(st.sets[1..], Some(fields), rows, current,
                                if partial.chunked then Some(values[n - 1]) else None), Ok(true))
  {}

  /** A set that holds values: what is left of the table moves on. */
  lemma AddedCarries(st: State, fields: seq<TypeCode>, values: seq<Value>, vals: seq<Value>, table: seq<Row>,
                     st': State)
    requires Carries(st, fields, vals, table) && |st.sets| > 0 && st.sets[0].Ok?
    requires Adds(values, st.sets[0].value.chunked, vals, st.sets[1..])
    requires var chunked, n := st.sets[0].value.chunked, |values|;
      var (rows, current) := Push(st.rows, st.currentRow, if chunked then values[..n - 1] else values, |fields|);
      st' == State(st.sets[1..], Some(fields), rows, current, if chunked then Some(values[n - 1]) else None)
    ensures var keep := if st.sets[0].value.chunked then |values| - 1 else |values|;
      && keep <= |vals| && |st'.currentRow| == Column(|st.currentRow|, keep, |fields|)
      && Carries(st', fields, vals[keep..], table)
  {
    var keep := if st.sets[0].value.chunked then |values| - 1 else |values|;
    ValuesJoin(st.rows, st.currentRow, vals, keep, table, |fields|);
  }

  lemma MergesNext(st: State, fields: seq<TypeCode>, st': State)
    requires |st.currentRow| < |fields| && |st.sets| > 0 && st.sets[0].Ok? && |st.sets[0].value.values| > 0
    requires st.pending.Some? ==> Mergeable(fields[|st.currentRow|])
    requires st'.sets == st.sets[1..] && (st'.pending.Some? <==> st.sets[0].value.chunked)
    requires var partial := st.sets[0].value;
      var keep := if partial.chunked then |partial.values| - 1 else |partial.values|;
      |st'.currentRow| == Column(|st.currentRow|, keep, |fields|)
    ensures Merges(st, fields) <==> Merges(st', fields)
  {}

  lemma ConsumeCarries(st: State, fields: seq<TypeCode>, vals: seq<Value>, table: seq<Row>) returns (vals': seq<Value>)
    requires Carries(st, fields, vals, table) && |st.sets| > 0
    requires st.pending.Some? && |st.sets[0].value.values| > 0 ==> Mergeable(fields[|st.currentRow|])
    ensures ConsumeNext(st).1 == Ok(true)
    ensures Carries(ConsumeNext(st).0, fields, vals', table)
    ensures Merges(st, fields) <==> Merges(ConsumeNext(st).0, fields)
  {
    var partial := st.sets[0].value;
    if |partial.values| == 0 {
      vals' := vals;
    } else {
      vals' := ConsumeSetCarries(st, fields, vals, table);
    }
  }

  lemma ConsumeSetCarries(st: State, fields: seq<TypeCode>, vals: seq<Value>, table: seq<Row>)
      returns (vals': seq<Value>)
    requires Carries(st, fields, vals, table) && |st.sets| > 0 && |st.sets[0].value.values| > 0
    requires st.pending.Some? ==> Mergeable(fields[|st.currentRow|])
    ensures ConsumeNext(st).1 == Ok(true)
    ensures Carries(ConsumeNext(st).0, fields, vals', table)
    ensures Merges(st, fields) <==> Merges(ConsumeNext(st).0, fields)
  {
    var partial := st.sets[0].value;
    var code := fields[|st.currentRow|];
    MergedValues(st.pending, vals, st.sets, code);
    var first :=
      if st.pending.Some? then MergeByType(st.pending.value, partial.values[0], code).value else partial.values[0];
    ConsumeValuesOfSet(st, fields, first);
    var st' := ConsumeNext(st).0;
    AddedCarries(st, fields, partial.values[0 := first], vals, table, st');
    MergesNext(st, fields, st');
    vals' := vals[if partial.chunked then |partial.values| - 1 else |partial.values|..];
  }

  lemma FrontOf(rows: seq<Row>, rest: seq<Value>, width: nat)
    requires Rectangular(rows, width) && |rows| > 0
    ensures var all := Flatten(rows) + rest;
      |all| >= width && all[..width] == rows[0] && all[width..] == Flatten(rows[1..]) + rest
  {
    ThreeParts(rows[0], Flatten(rows[1..]), rest);
  }

  lemma FirstRow(rows: seq<Row>, rest: seq<Value>, table: seq<Row>, width: nat)
    requires Rectangular(rows, width) && Rectangular(table, width) && width > 0
    requires Flatten(table) == Flatten(rows) + rest && |rows| > 0
    ensures |table| > 0 && table[0] == rows[0] && Flatten(table[1..]) == Flatten(rows[1..]) + rest
  {
    FlattenLength(rows, width);
    FlattenLength(table, width);
    assert |rows| * width >= width;
    FrontOf(rows, rest, width);
    FrontOf(table, [], width);
    assert Flatten(table) + [] == Flatten(table) && Flatten(table[1..]) + [] == Flatten(table[1..]);
  }

  lemma NothingLeft(current: seq<Value>, table: seq<Row>, width: nat)
    requires Rectangular(table, width) && |current| < width && Flatten(table) == current
    ensures table == [] && current == []
  {}

  lemma RowCarried(st: State, fields: seq<TypeCode>, vals: seq<Value>, table: seq<Row>)
    requires Carries(st, fields, vals, table) && |st.rows| > 0
    ensures |table| > 0 && st.rows[0] == table[0]
    ensures Carries(st.(rows := st.rows[1..]), fields, vals, table[1..])
  {
    assert Flatten(st.rows) + st.currentRow + vals == Flatten(st.rows) + (st.currentRow + vals);
    FirstRow(st.rows, st.currentRow + vals, table, |fields|);
    assert Flatten(st.rows[1..]) + (st.currentRow + vals) == Flatten(st.rows[1..]) + st.currentRow + vals;
  }

  /** One call of `next_async` yields the next row of the table, or the end when there is none. */
  lemma {:induction false} NextDelivers(st: State, fields: seq<TypeCode>, vals: seq<Value>, table: seq<Row>)
      returns (vals': seq<Value>)
    requires Delivers(st, fields, vals, table)
    ensures var (st', row) := Next(st);
      if |table| == 0 then row == None
      else row == Some(Ok(table[0])) && Delivers(st', fields, vals', table[1..])
    decreases |st.sets|
  {
    vals' := vals;
    if |st.rows| > 0 {
      RowCarried(st, fields, vals, table);
    } else if |st.sets| == 0 {
      assert Flatten(table) == st.currentRow;
      NothingLeft(st.currentRow, table, |fields|);
    } else {
      var more := ConsumeCarries(st, fields, vals, table);
      var st1 := ConsumeNext(st).0;
      assert Next(st) == Next(st1);
      vals' := NextDelivers(st1, fields, more, table);
    }
  }

  /** Calling `next_async` until it yields nothing, at most `calls` times; None if an error comes. */
  function Drain(st: State, calls: nat): Option<seq<Row>>
    decreases calls
  {
    var (st', row) := Next(st);
    if row.None? then Some([])
    else if row.value.Err? || calls == 0 then None
    else
      var rest := Drain(st', calls - 1);
      if rest.None? then None else Some([row.value.value] + rest.value)
  }

  lemma DrainNext(st: State, calls: nat)
    ensures var (st', row) := Next(st);
      && (row.None? ==> Drain(st, calls) == Some([]))
      && (row.Some? && row.value.Ok? && calls > 0 && Drain(st', calls - 1).Some? ==>
            Drain(st, calls) == Some([row.value.value] + Drain(st', calls - 1).value))
  {}

  lemma {:induction false} DrainDelivers(st: State, fields: seq<TypeCode>, vals: seq<Value>, table: seq<Row>)
    requires Delivers(st, fields, vals, table)
    ensures Drain(st, |table|) == Some(table)
    decreases |table|
  {
    var vals' := NextDelivers(st, fields, vals, table);
    DrainNext(st, |table|);
    if |table| > 0 {
      DrainDelivers(Next(st).0, fields, vals', table[1..]);
      FirstAndRest(table);
    }
  }

  lemma FirstAndRest(table: seq<Row>)
    requires |table| > 0
    ensures [table[0]] + table[1..] == table
  {}

  /** A cut in any other column ends in an error before the table is complete. */
  lemma {:induction false} BadCutFails(st: State, fields: seq<TypeCode>, vals: seq<Value>, table: seq<Row>, calls: nat)
    requires Carries(st, fields, vals, table) && !Merges(st, fields)
    ensures Drain(st, calls) == None
    decreases calls, |st.sets|
  {
    if |st.rows| > 0 {
      RowCarried(st, fields, vals, table);
      if calls > 0 { BadCutFails(st.(rows := st.rows[1..]), fields, vals, table[1..], calls - 1); }
    } else if st.pending.Some? && |st.sets[0].value.values| > 0 && !Mergeable(fields[|st.currentRow|]) {
      assert ConsumeNext(st).1.Err?;
    } else {
      var vals' := ConsumeCarries(st, fields, vals, table);
      var st1 := ConsumeNext(st).0;
      assert Next(st) == Next(st1);
      BadCutFails(st1, fields, vals', table, calls);
    }
  }

  /**
   * A cutting of a table's values, however the sets are cut, gives the table back row by row if
   * and only if no value is cut in a column whose type cannot be merged.
   */
  lemma Reassembly(table: seq<Row>, fields: seq<TypeCode>, sets: seq<Result<PartialSet>>)
    requires |fields| > 0 && Rectangular(table, |fields|)
    requires |sets| > 0 && sets[0].Ok? && sets[0].value.metadata == Some(fields)
    requires Cutting(Flatten(table), sets)
    ensures Drain(Initial(sets), |table|) == Some(table) <==> CutsMergeable(fields, 0, sets)
  {
    ThreeParts([], [], Flatten(table));
    if CutsMergeable(fields, 0, sets) {
      DrainDelivers(Initial(sets), fields, Flatten(table), table);
    } else {
      BadCutFails(Initial(sets), fields, Flatten(table), table, |table|);
    }
  }

  /** `one_or_none` tells tables of no row, one row and more rows apart. */
  lemma OneOrNoneOfTable(st: State, fields: seq<TypeCode>, vals: seq<Value>, table: seq<Row>)
    requires Delivers(st, fields, vals, table)
    ensures OneOrNone(st).1
         == if |table| == 0 then Ok(None) else if |table| == 1 then Ok(Some(table[0])) else Err(Internal)
  {
    var vals1 := NextDelivers(st, fields, vals, table);
    if |table| > 0 {
      var _ := NextDelivers(Next(st).0, fields, vals1, table[1..]);
    }
  }

  /** The state after some partial sets. */
  function Consumed(st: State, sets: nat): State { if sets == 0 then st else ConsumeNext(Consumed(st, sets - 1)).0 }

  lemma ConsumeKeepsShort(st: State)
    requires st.metadata.Some? && |st.currentRow| < |Fields(st)| && Rectangular(st.rows, |Fields(st)|)
    ensures var st' := ConsumeNext(st).0;
      st'.metadata == st.metadata && |st'.currentRow| < |Fields(st)| && Rectangular(st'.rows, |Fields(st)|)
  {
    if |st.sets| > 0 && st.sets[0].Ok? && |st.sets[0].value.values| > 0 {
      forall values: seq<Value>
        ensures var (rows, current) := Push(st.rows, st.currentRow, values, |Fields(st)|);
          |current| < |Fields(st)| && Rectangular(rows, |Fields(st)|)
      {
        PushKeepsValues(st.rows, st.currentRow, values, |Fields(st)|);
      }
    }
  }

  /**
   * Whatever else a stream holds, sets that fail or do not fit together included: if the first set
   * tells the columns, the row in progress always stays shorter than a row.
   */
  lemma {:induction false} RowInProgressIsShort(sets: seq<Result<PartialSet>>, fields: seq<TypeCode>, n: nat)
    requires |sets| > 0 && sets[0].Ok? && sets[0].value.metadata == Some(fields) && |fields| > 0 && n > 0
    ensures var st := Consumed(Initial(sets), n);
      st.metadata == Some(fields) && |st.currentRow| < |fields| && Rectangular(st.rows, |fields|)
  {
    if n > 1 {
      RowInProgressIsShort(sets, fields, n - 1);
      ConsumeKeepsShort(Consumed(Initial(sets), n - 1));
    } else {
      var known := Initial(sets).(metadata := Some(fields));
      ConsumeKeepsShort(known);
      assert Consumed(Initial(sets), 1) == ConsumeNext(Initial(sets)).0 == ConsumeNext(known).0;
    }
  }
}
