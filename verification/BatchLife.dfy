/**
 * The life of a batch over whole runs: what is uploaded is kept in order, reaches the rows when
 * the batch is committed and not before, and reaches them once.
 */
module BatchLife {
  import opened Wrappers
  import opened Bso
  import opened Store
  import opened Handlers
  import opened Footprint
  import opened Protocol
  import opened Versions
  import opened StorageTime
  import opened BatchString
  import opened Collation
  import BatchCommit
  import SpannerPost

  // ----- what a batch holds -----

  /** The content of a batch stands for the given records. */
  predicate Decodes(b: Backend, content: Content, items: seq<Item>) {
    match content
    case Text(bsos) => b.Mysql? && Terminated(bsos) && BatchStringToBsos(bsos) == Ok(items)
    case Children(children) => b.Spanner? && BatchCommit.Holds(children, items)
  }

  lemma HoldsSnoc(children: BatchCommit.Children, items: seq<Item>, last: Item)
    requires BatchCommit.Holds(children, items) && last.id !in children
    ensures BatchCommit.Holds(children[last.id := last], items + [last])
  {
    var more := items + [last];
    assert more[..|more| - 1] == items;
    IdsLast(more);
    forall i | 0 <= i < |items|
      ensures items[i].id != last.id
    {
      assert items[i].id in children;
    }
  }

  lemma LastApart<T>(before: seq<T>, items: seq<T>)
    requires |items| > 0
    ensures before + items[..|items| - 1] + [items[|items| - 1]] == before + items
  {}

  lemma {:induction false} AddChildrenHolds(children: BatchCommit.Children, before: seq<Item>, items: seq<Item>)
    requires BatchCommit.Holds(children, before) && AddChildren(children, items).Ok?
    ensures BatchCommit.Holds(AddChildren(children, items).value, before + items)
  {
    if |items| == 0 {
      assert before + items == before;
    } else {
      var n := |items| - 1;
      AddChildrenHolds(children, before, items[..n]);
      HoldsSnoc(AddChildren(children, items[..n]).value, before + items[..n], items[n]);
      LastApart(before, items);
    }
  }

  lemma TerminatedConcat(a: string, b: string)
    requires Terminated(a) && Terminated(b)
    ensures Terminated(a + b)
  {}

  /** Appending to the content is appending to the records. */
  lemma AppendDecodes(b: Backend, content: Content, before: seq<Item>, items: seq<Item>)
    requires Decodes(b, content, before) && AppendContent(content, items).Ok?
    ensures Decodes(b, AppendContent(content, items).value, before + items)
  {
    match content
    case Text(bsos) =>
      RoundTrip(items);
      Homomorphism(bsos, BsosToBatchString(items));
      TerminatedConcat(bsos, BsosToBatchString(items));
    case Children(children) => AddChildrenHolds(children, before, items);
  }

  lemma NewBatchDecodes(x: Context)
    ensures Decodes(x.b, NewBatch(x).content, [])
  {}

  // ----- what a request does to the batches -----

  datatype Effect = NoEffect | Submitted(id: int, isNew: bool, items: seq<Item>) | Committed(id: int, isNew: bool)

  /** What a POST with these parameters and this reply has done to a batch. */
  function BatchEffect(x: Context, env: Env, action: Action, reply: Reply): Effect
    requires action.PostBatch?
  {
    var id := if action.batch.Some? then action.batch.value else NewId(x, env.uuid);
    if action.commit then Committed(id, action.batch.None?)
    else Submitted(id, action.batch.None?, if |reply.success| == |action.items| then action.items else [])
  }

  /** The batches before and after fit the effect. */
  predicate Effects(x: Context, before: Batches, after: Batches, effect: Effect) {
    match effect
    case NoEffect => after == before
    case Submitted(id, isNew, items) =>
      && isNew == (id !in before)
      && id in after && after == before[id := after[id]]
      && var content := if isNew then NewBatch(x).content else before[id].content;
         (items == [] && after[id].content == content) || Ok(after[id].content) == AppendContent(content, items)
    case Committed(id, isNew) => isNew == (id !in before) && after == before - {id}
  }

  lemma OpenBatchEffects(x: Context, env: Env, batch: Option<int>)
    ensures var upload := OpenBatch(x, env, NOTHING, batch);
      upload.r.Ok? ==>
        && upload.r.value == (if batch.Some? then batch.value else NewId(x, env.uuid))
        && batch.None? == (upload.r.value !in x.found.batches)
        && (batch.Some? ==> upload.p == NOTHING)
        && (batch.None? ==> BatchesAt(x, upload.p) == x.found.batches[upload.r.value := NewBatch(x)])
  {}

  lemma PostCallBatches(x: Context, env: Env, p: Pending, items: seq<Item>)
    ensures PostCall(x, env, p, items).p.batches == p.batches
  {
    PostEachIsPutAll(x, p, items, env.faulty);
  }

  lemma AppendCallBatches(x: Context, env: Env, p: Pending, id: int, items: seq<Item>)
    requires id in BatchesAt(x, p)
    ensures var before, after := BatchesAt(x, p), BatchesAt(x, AppendCall(x, env, p, id, items).p);
      && id in after && after == before[id := after[id]]
      && (if AppendCall(x, env, p, id, items).r.Ok?
          then Ok(after[id].content) == AppendContent(before[id].content, items)
          else after[id] == before[id])
  {}

  /** Uploading: the records are appended, or nothing is. */
  lemma UploadEffects(x: Context, env: Env, batch: Option<int>, items: seq<Item>, invalid: set<string>)
    ensures var done := HandleBatch(x, env, NOTHING, batch, false, items, invalid);
      done.r.Ok? ==> Effects(x, x.found.batches, BatchesAt(x, done.p),
                             BatchEffect(x, env, PostBatch(batch, false, items, invalid), done.r.value))
  {
    OpenBatchEffects(x, env, batch);
    var upload := OpenBatch(x, env, NOTHING, batch);
    if upload.r.Ok? {
      AppendCallBatches(x, env, upload.p, upload.r.value, items);
    }
  }

  /** The records of the last POST that have been stored. */
  function PostedItems(items: seq<Item>, reply: Reply): seq<Item> {
    if |reply.success| == |items| then items else []
  }

  /** MySQL: the rows after the last records have been posted. */
  function PostedFirst(x: Context, env: Env, posted: seq<Item>): Rows {
    PutAllCollated(x.found.rows, x.ts, Without(posted, env.faulty))
  }

  /** The rows a commit leaves: those of the last POST written first, then those of the batch, each of them once. */
  ghost predicate Applies(x: Context, env: Env, p: Pending, posted: seq<Item>, uploaded: seq<Item>) {
    match x.b
    case Mysql =>
      && MutationsOf(x, p) == []
      && RowsAt(x, p) == PutAllCollated(PostedFirst(x, env, posted), x.ts, Without(uploaded, env.faulty))
    case Spanner =>
      && MutationsOf(x, p) == (if posted == [] then [] else env.mutations)
      && exists children ::
        BatchCommit.Holds(children, uploaded) && RowsAt(x, p) == BatchCommit.Commit(x.found.rows, x.ts, children)
  }

  /** After the last POST has been stored, the batch is still there and still stands for the records uploaded to it. */
  predicate Ready(x: Context, env: Env, p: Pending, id: int, posted: seq<Item>, uploaded: seq<Item>, before: Batches) {
    && id in BatchesAt(x, p) && BatchesAt(x, p) - {id} == before - {id}
    && Decodes(x.b, BatchesAt(x, p)[id].content, uploaded)
    && RowsAt(x, p) == (if x.b.Mysql? then PostedFirst(x, env, posted) else x.found.rows)
    && MutationsOf(x, p) == (if x.b.Mysql? || posted == [] then [] else env.mutations)
  }

  lemma PostCallRows(x: Context, env: Env, p: Pending, items: seq<Item>)
    requires RowsAt(x, p) == x.found.rows && p.mutations == map[]
    ensures var posted := PostCall(x, env, p, items);
      && RowsAt(x, posted.p) == (if x.b.Mysql? && posted.r.Ok? then PostedFirst(x, env, items) else x.found.rows)
      && MutationsOf(x, posted.p) == (if x.b.Mysql? || posted.r.Err? then [] else env.mutations)
  {
    PostEachIsPutAll(x, p, items, env.faulty);
    assert [] + env.mutations == env.mutations;
  }

  lemma PostCallReady(x: Context, env: Env, p: Pending, id: int, items: seq<Item>, uploaded: seq<Item>)
    requires Ready(x, env, p, id, [], uploaded, BatchesAt(x, p)) && |items| > 0
    requires RowsAt(x, p) == x.found.rows && p.mutations == map[]
    ensures var posted := PostCall(x, env, p, items);
      Ready(x, env, posted.p, id, if posted.r.Ok? then items else [], uploaded, BatchesAt(x, p))
  {
    PostCallBatches(x, env, p, items);
    PostCallRows(x, env, p, items);
  }

  lemma AppendNothingReady(x: Context, env: Env, p: Pending, id: int, uploaded: seq<Item>)
    requires Ready(x, env, p, id, [], uploaded, BatchesAt(x, p))
    ensures Ready(x, env, AppendCall(x, env, p, id, []).p, id, [], uploaded, BatchesAt(x, p))
  {
    AppendCallBatches(x, env, p, id, []);
    if AppendCall(x, env, p, id, []).r.Ok? {
      AppendDecodes(x.b, BatchesAt(x, p)[id].content, uploaded, []);
      assert uploaded + [] == uploaded;
    }
  }

  lemma StoreItemsReady(x: Context, env: Env, p: Pending, id: int, items: seq<Item>, uploaded: seq<Item>)
    requires Ready(x, env, p, id, [], uploaded, BatchesAt(x, p))
    requires RowsAt(x, p) == x.found.rows && p.mutations == map[]
    ensures var stored := StoreItems(x, env, p, id, true, items);
      Ready(x, env, stored.p, id, if stored.r.Ok? then items else [], uploaded, BatchesAt(x, p))
  {
    if |items| > 0 {
      PostCallReady(x, env, p, id, items, uploaded);
    } else {
      assert items == [];
      AppendNothingReady(x, env, p, id, uploaded);
    }
  }

  lemma TextApplies(x: Context, env: Env, p: Pending, id: int, posted: seq<Item>, uploaded: seq<Item>, before: Batches)
    requires Ready(x, env, p, id, posted, uploaded, before) && x.b.Mysql?
    ensures var r := CommitBatch(x, p, id, env.faulty);
      r.Ok? && Applies(x, env, r.value, posted, uploaded) && BatchesAt(x, r.value) == before - {id}
  {
    PostEachIsPutAll(x, p, uploaded, env.faulty);
  }

  lemma ChildrenApply(x: Context, env: Env, p: Pending, id: int, posted: seq<Item>, uploaded: seq<Item>,
                      before: Batches)
    requires Ready(x, env, p, id, posted, uploaded, before) && x.b.Spanner?
    ensures var r := CommitBatch(x, p, id, env.faulty);
      r.Ok? && Applies(x, env, r.value, posted, uploaded) && BatchesAt(x, r.value) == before - {id}
  {}

  lemma FinishApplies(x: Context, env: Env, p: Pending, id: int, posted: seq<Item>, uploaded: seq<Item>,
                      before: Batches)
    requires Ready(x, env, p, id, posted, uploaded, before)
    ensures ValidBatch(x, p, id, env.getClock) <==> FinishBatch(x, env, p, id).r.Ok?
    ensures var done := FinishBatch(x, env, p, id);
      done.r.Ok? ==> Applies(x, env, done.p, posted, uploaded) && BatchesAt(x, done.p) == before - {id}
  {
    if ValidBatch(x, p, id, env.getClock) {
      match BatchesAt(x, p)[id].content
      case Text(bsos) => TextApplies(x, env, p, id, posted, uploaded, before);
      case Children(children) => ChildrenApply(x, env, p, id, posted, uploaded, before);
    }
  }

  lemma OpenBatchReady(x: Context, env: Env, batch: Option<int>, uploaded: seq<Item>)
    requires batch.None? ==> uploaded == []
    requires batch.Some? && batch.value in x.found.batches ==>
      Decodes(x.b, x.found.batches[batch.value].content, uploaded)
    ensures var upload := OpenBatch(x, env, NOTHING, batch);
      upload.r.Ok? ==>
        && Ready(x, env, upload.p, upload.r.value, [], uploaded, BatchesAt(x, upload.p))
        && BatchesAt(x, upload.p) - {upload.r.value} == x.found.batches - {upload.r.value}
        && RowsAt(x, upload.p) == x.found.rows && upload.p.mutations == map[]
  {}

  /** Committing: what was uploaded is applied, and the batch is gone. */
  lemma CommitApplies(x: Context, env: Env, batch: Option<int>, items: seq<Item>, invalid: set<string>,
                      uploaded: seq<Item>)
    requires batch.None? ==> uploaded == []
    requires batch.Some? && batch.value in x.found.batches ==>
      Decodes(x.b, x.found.batches[batch.value].content, uploaded)
    ensures var done := HandleBatch(x, env, NOTHING, batch, true, items, invalid);
      done.r.Ok? ==>
        && Effects(x, x.found.batches, BatchesAt(x, done.p),
                   BatchEffect(x, env, PostBatch(batch, true, items, invalid), done.r.value))
        && Applies(x, env, done.p, PostedItems(items, done.r.value), uploaded)
  {
    OpenBatchReady(x, env, batch, uploaded);
    OpenBatchEffects(x, env, batch);
    var upload := OpenBatch(x, env, NOTHING, batch);
    if upload.r.Ok? {
      var id := upload.r.value;
      StoreItemsReady(x, env, upload.p, id, items, uploaded);
      var stored := StoreItems(x, env, upload.p, id, true, items);
      FinishApplies(x, env, stored.p, id, if stored.r.Ok? then items else [], uploaded, BatchesAt(x, upload.p));
    }
  }
}
