/**
 * The last POST of a batch (`post_collection_batch` in src/web/handlers.rs): its records are not
 * appended but posted at once, before the batch is committed.
 */
module CommitShortcut {
  import opened Wrappers
  import opened Bso
  import opened Upsert
  import opened SpannerPost
  import opened BatchCommit

  // ----- MySQL -----

  /** What appending and then committing writes. */
  function AppendThenCommit(rows: Rows, ts: int, batch: seq<Item>, last: seq<Item>): Rows {
    PutAll(rows, ts, batch + last)
  }

  /** What the handler does: the last records first, then the batch. */
  function PostThenCommit(rows: Rows, ts: int, batch: seq<Item>, last: seq<Item>): Rows {
    PutAll(PutAll(rows, ts, last), ts, batch)
  }

  predicate AgreesWith<T(==)>(a: Option<T>, b: Option<T>) { a.Some? && b.Some? ==> a == b }

  /** Where the batch and the last POST set the same field of the same record, they set it to the same value. */
  predicate NoContradiction(batch: seq<Item>, last: seq<Item>, id: string) {
    var a, b := Latest(batch, id), Latest(last, id);
    a.Some? && b.Some? ==>
      AgreesWith(a.value.sortindex, b.value.sortindex) && AgreesWith(a.value.payload, b.value.payload)
      && AgreesWith(a.value.ttl, b.value.ttl)
  }

  lemma MergeCommutes(a: Option<Item>, b: Option<Item>, prior: Option<Row>, ts: int)
    requires a.Some? && b.Some? ==> a.value.id == b.value.id
    ensures Written(prior, ts, MergeOption(a, b)) == Written(prior, ts, MergeOption(b, a))
      <==> (a.Some? && b.Some? ==>
              AgreesWith(a.value.sortindex, b.value.sortindex) && AgreesWith(a.value.payload, b.value.payload)
              && AgreesWith(a.value.ttl, b.value.ttl))
  {}

  lemma ShortcutAt(rows: Rows, ts: int, batch: seq<Item>, last: seq<Item>, id: string)
    ensures Lookup(PostThenCommit(rows, ts, batch, last), id) == Lookup(AppendThenCommit(rows, ts, batch, last), id)
      <==> NoContradiction(batch, last, id)
  {
    PutAllConcat(rows, ts, last, batch);
    PutAllAt(rows, ts, last + batch, id);
    PutAllAt(rows, ts, batch + last, id);
    LatestConcat(last, batch, id);
    LatestConcat(batch, last, id);
    MergeCommutes(Latest(batch, id), Latest(last, id), Lookup(rows, id), ts);
  }

  /**
   * On MySQL the shortcut writes what appending and committing would write exactly if the batch
   * and the last POST do not contradict each other; otherwise the batch's older value wins.
   */
  lemma ShortcutIsExact(rows: Rows, ts: int, batch: seq<Item>, last: seq<Item>)
    ensures PostThenCommit(rows, ts, batch, last) == AppendThenCommit(rows, ts, batch, last)
      <==> forall id :: NoContradiction(batch, last, id)
  {
    forall id
      ensures Lookup(PostThenCommit(rows, ts, batch, last), id) == Lookup(AppendThenCommit(rows, ts, batch, last), id)
        <==> NoContradiction(batch, last, id)
    {
      ShortcutAt(rows, ts, batch, last, id);
    }
    if forall id :: NoContradiction(batch, last, id) {
      forall id
        ensures Lookup(PostThenCommit(rows, ts, batch, last), id) == Lookup(AppendThenCommit(rows, ts, batch, last), id)
      {
        assert NoContradiction(batch, last, id);
      }
      SameRows(PostThenCommit(rows, ts, batch, last), AppendThenCommit(rows, ts, batch, last));
    }
  }

  /** Disjoint ids are enough. */
  lemma ShortcutOfDisjoint(rows: Rows, ts: int, batch: seq<Item>, last: seq<Item>)
    requires Ids(batch) !! Ids(last)
    ensures PostThenCommit(rows, ts, batch, last) == AppendThenCommit(rows, ts, batch, last)
  {
    forall id
      ensures NoContradiction(batch, last, id)
    {
      assert Latest(batch, id).Some? ==> id in Ids(batch);
      assert Latest(last, id).Some? ==> id in Ids(last);
    }
    ShortcutIsExact(rows, ts, batch, last);
  }

  /** A record uploaded twice: the shortcut leaves the value that was uploaded first. */
  lemma ShortcutLosesNewerValue(rows: Rows, ts: int)
    ensures var batch := [Item("a", None, Some("old"), None)];
      var last := [Item("a", None, Some("new"), None)];
      && PostThenCommit(rows, ts, batch, last)["a"].payload == "old"
      && AppendThenCommit(rows, ts, batch, last)["a"].payload == "new"
  {}

  // ----- Spanner -----

  /**
   * The mutations of the last POST are made from the rows as they are, but the database applies
   * them when the transaction commits, after the statements that commit the batch.
   */
  function DmlThenMutations(owner: Owner, rows: Rows, ts: int, batch: Children,
                            mutations: seq<Mutation>): Result<Rows>
  {
    ApplyAll(owner, BatchCommit.Commit(rows, ts, batch), mutations)
  }

  /** As long as no common record is new, the mutations find what they were made for. */
  lemma MutationsStillApply(owner: Owner, rows: Rows, ts: int, batch: Children, last: Children, items: seq<Item>,
                            mutations: seq<Mutation>)
    requires Holds(last, items) && Represents(owner, ts, rows.Keys, mutations, items)
    requires forall id | id in batch && id in last :: id in rows
    ensures DmlThenMutations(owner, rows, ts, batch, mutations)
         == Ok(PutAll(BatchCommit.Commit(rows, ts, batch), ts, items))
  {
    TouchesOnce(rows, ts, batch);
    forall i | 0 <= i < |items|
      ensures items[i].id in BatchCommit.Commit(rows, ts, batch) <==> items[i].id in rows.Keys
    {
      assert items[i].id in last;
    }
    RepresentedIsPutAll(owner, BatchCommit.Commit(rows, ts, batch), ts, rows.Keys, mutations, items);
  }

  /** What differs between posting a record and committing it as part of a batch. */
  function Posted(prior: Option<Row>, committed: Option<Row>, item: Option<Item>): Option<Row> {
    if prior.Some? && committed.Some? && item.Some? && !Modifies(item.value)
    then Some(committed.value.(modified := prior.value.modified)) else committed
  }

  lemma ShortcutRow(rows: Rows, ts: int, batch: Children, last: Children, items: seq<Item>, id: string)
    requires batch.Keys !! last.Keys && Holds(last, items)
    ensures Lookup(PutAll(BatchCommit.Commit(rows, ts, batch), ts, items), id)
         == Posted(Lookup(rows, id), Lookup(BatchCommit.Commit(rows, ts, batch + last), id), Lookup(last, id))
  {
    CommitAt(rows, ts, batch, id);
    CommitAt(rows, ts, batch + last, id);
    PutAllAt(BatchCommit.Commit(rows, ts, batch), ts, items, id);
    HoldsLatest(last, items, id);
    assert Lookup(batch + last, id) == if id in last then Lookup(last, id) else Lookup(batch, id);
  }

  /**
   * On Spanner, for disjoint ids: the commit succeeds, and its rows are those of appending and
   * committing, but for `modified` of a record that sets neither payload nor sortindex of an
   * existing row.
   */
  lemma SpannerShortcut(owner: Owner, rows: Rows, ts: int, batch: Children, last: Children, items: seq<Item>,
                        mutations: seq<Mutation>, id: string)
    requires batch.Keys !! last.Keys && Holds(last, items)
    requires Represents(owner, ts, rows.Keys, mutations, items)
    ensures var shortcut := DmlThenMutations(owner, rows, ts, batch, mutations);
      var committed := BatchCommit.Commit(rows, ts, batch + last);
      && shortcut.Ok?
      && Lookup(shortcut.value, id) == Posted(Lookup(rows, id), Lookup(committed, id), Lookup(last, id))
  {
    MutationsStillApply(owner, rows, ts, batch, last, items, mutations);
    ShortcutRow(rows, ts, batch, last, items, id);
  }

  lemma PostedIsCommitted(rows: Rows, ts: int, batch: Children, last: Children, id: string)
    ensures var committed := Lookup(BatchCommit.Commit(rows, ts, batch + last), id);
      Posted(Lookup(rows, id), committed, Lookup(last, id)) == committed <==> SameModified(rows, ts, last, id)
  {}

  /** The shortcut is exact on Spanner if and only if no record of the last POST is of that kind. */
  lemma SpannerShortcutIsExact(owner: Owner, rows: Rows, ts: int, batch: Children, last: Children, items: seq<Item>,
                               mutations: seq<Mutation>)
    requires batch.Keys !! last.Keys && Holds(last, items)
    requires Represents(owner, ts, rows.Keys, mutations, items)
    ensures DmlThenMutations(owner, rows, ts, batch, mutations) == Ok(BatchCommit.Commit(rows, ts, batch + last))
      <==> forall id :: SameModified(rows, ts, last, id)
  {
    MutationsStillApply(owner, rows, ts, batch, last, items, mutations);
    var shortcut := PutAll(BatchCommit.Commit(rows, ts, batch), ts, items);
    var committed := BatchCommit.Commit(rows, ts, batch + last);
    forall id
      ensures Lookup(shortcut, id) == Lookup(committed, id) <==> SameModified(rows, ts, last, id)
    {
      ShortcutRow(rows, ts, batch, last, items, id);
      PostedIsCommitted(rows, ts, batch, last, id);
    }
    if forall id :: SameModified(rows, ts, last, id) {
      forall id
        ensures Lookup(shortcut, id) == Lookup(committed, id)
      {
        assert SameModified(rows, ts, last, id);
      }
      SameRows(shortcut, committed);
    }
  }

  /** An insert of a row that the batch has inserted in the meantime makes the whole commit fail. */
  lemma {:induction false} InsertOfExistingFails(owner: Owner, rows: Rows, mutations: seq<Mutation>, i: nat, j: nat)
    requires i < |mutations| && j < |mutations[i].values|
    requires mutations[i].insert && |mutations[i].values[j]| >= 4
    requires mutations[i].values[j][3].Text? && mutations[i].values[j][3].text in rows
    ensures ApplyAll(owner, rows, mutations).Err?
  {
    var n := |mutations| - 1;
    if i < n {
      InsertOfExistingFails(owner, rows, mutations[..n], i, j);
    } else {
      var before := ApplyAll(owner, rows, mutations[..n]);
      if before.Ok? {
        ApplyAllKeepsKeys(owner, rows, mutations[..n]);
        InsertRowFails(owner, before.value, mutations[n].columns, mutations[n].values, j);
      }
    }
  }

  lemma {:induction false} InsertRowFails(owner: Owner, rows: Rows, columns: seq<Column>, values: seq<seq<Value>>,
                                          j: nat)
    requires j < |values| && |values[j]| >= 4 && values[j][3].Text? && values[j][3].text in rows
    ensures ApplyRows(owner, rows, true, columns, values).Err?
  {
    var n := |values| - 1;
    if j < n {
      InsertRowFails(owner, rows, columns, values[..n], j);
    } else {
      ApplyRowsKeepsKeys(owner, rows, true, columns, values[..n]);
    }
  }

  lemma {:induction false} ApplyRowsKeepsKeys(owner: Owner, rows: Rows, insert: bool, columns: seq<Column>,
                                              values: seq<seq<Value>>)
    ensures var r := ApplyRows(owner, rows, insert, columns, values); r.Ok? ==> rows.Keys <= r.value.Keys
  {
    if |values| > 0 {
      ApplyRowsKeepsKeys(owner, rows, insert, columns, values[..|values| - 1]);
    }
  }

  lemma {:induction false} ApplyAllKeepsKeys(owner: Owner, rows: Rows, mutations: seq<Mutation>)
    ensures var r := ApplyAll(owner, rows, mutations); r.Ok? ==> rows.Keys <= r.value.Keys
  {
    if |mutations| > 0 {
      var n := |mutations| - 1;
      ApplyAllKeepsKeys(owner, rows, mutations[..n]);
      var before := ApplyAll(owner, rows, mutations[..n]);
      if before.Ok? {
        ApplyRowsKeepsKeys(owner, before.value, mutations[n].insert, mutations[n].columns, mutations[n].values);
      }
    }
  }

  lemma NewCommonRecordFails(owner: Owner, rows: Rows, ts: int, batch: Children, items: seq<Item>,
                             mutations: seq<Mutation>, item: Item)
    requires Represents(owner, ts, rows.Keys, mutations, items)
    requires item in items && item.id in batch && item.id !in rows
    ensures DmlThenMutations(owner, rows, ts, batch, mutations).Err?
  {
    TouchesOnce(rows, ts, batch);
    var groups :| Grouping(owner, ts, rows.Keys, mutations, items, groups);
    assert item in Flatten(groups);
    var i, j := Find(groups, item);
    assert Writes(owner, ts, rows.Keys, mutations[i], groups[i]);
    InsertOfExistingFails(owner, BatchCommit.Commit(rows, ts, batch), mutations, i, j);
  }

  /**
   * With ids in common the commit succeeds exactly if every common record was there before:
   * a new one would be inserted twice.
   */
  lemma SpannerShortcutSucceeds(owner: Owner, rows: Rows, ts: int, batch: Children, last: Children, items: seq<Item>,
                                mutations: seq<Mutation>)
    requires Holds(last, items) && Represents(owner, ts, rows.Keys, mutations, items)
    ensures DmlThenMutations(owner, rows, ts, batch, mutations).Ok?
      <==> forall id | id in batch && id in last :: id in rows
  {
    if forall id | id in batch && id in last :: id in rows {
      MutationsStillApply(owner, rows, ts, batch, last, items, mutations);
    } else {
      var id :| id in batch && id in last && id !in rows;
      var k :| 0 <= k < |items| && items[k].id == id;
      NewCommonRecordFails(owner, rows, ts, batch, items, mutations, items[k]);
    }
  }

  lemma {:induction false} Find(groups: seq<seq<Item>>, item: Item) returns (i: nat, j: nat)
    requires item in Flatten(groups)
    ensures i < |groups| && j < |groups[i]| && groups[i][j] == item
  {
    var n := |groups| - 1;
    if item in groups[n] {
      i := n;
      j :| 0 <= j < |groups[n]| && groups[n][j] == item;
    } else {
      i, j := Find(groups[..n], item);
    }
  }
}
