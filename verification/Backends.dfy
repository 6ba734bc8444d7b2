/** What the two backends make of the same requests. */
module Backends {
  import opened Wrappers
  import opened Bso
  import opened Upsert
  import opened Collation
  import opened Store
  import opened Handlers
  import opened Footprint
  import opened BatchLife
  import opened CommitShortcut
  import opened SpannerPost
  import BatchCommit

  /** The collection after the commit of what an action has left. */
  function After(t: Tables, x: Context, p: Pending): Collection
    requires CommitTables(t, p).Ok?
  {
    CollectionAt(CommitTables(t, p).value, KeyOf(x))
  }

  lemma CommitSucceeds(t: Tables, x: Context, p: Pending)
    requires Sound(x) && Shape(x, p) && x.found == CollectionAt(t, KeyOf(x))
    requires ApplyAll(OwnerOf(KeyOf(x)), RowsAt(x, p), MutationsOf(x, p)).Ok?
    ensures CommitTables(t, p).Ok?
  {}

  lemma {:induction false} NoneFaulty(items: seq<Item>)
    ensures Without(items, {}) == items
  {
    if |items| > 0 { NoneFaulty(items[..|items| - 1]); }
  }

  lemma FindsOwn(rows: Rows, items: seq<Item>)
    ensures Finds(rows, rows.Keys, items)
  {}

  // ----- a POST -----

  /** What a POST makes of the rows: MySQL's upserts go by the collation, and leave out what fails. */
  function PostedRows(x: Context, env: Env, items: seq<Item>): Rows {
    if x.b.Mysql? then PutAllCollated(x.found.rows, x.ts, Without(items, env.faulty))
    else PutAll(x.found.rows, x.ts, items)
  }

  lemma PostPending(x: Context, env: Env, items: seq<Item>)
    requires Sound(x) && DistinctIds(items)
    requires env.fault.None? && Represented(x, env, x.found.rows, items)
    ensures var p := PostCall(x, env, NOTHING, items).p;
      && Touched(x, p) && BatchesAt(x, p) == x.found.batches
      && ApplyAll(OwnerOf(KeyOf(x)), RowsAt(x, p), MutationsOf(x, p))
      == Ok(PostedRows(x, env, items))
  {
    PostBsosShape(x, NOTHING, items, env.faulty, env.mutations);
    PostEachIsPutAll(x, NOTHING, items, env.faulty);
    PostCallBatches(x, env, NOTHING, items);
    if x.b.Spanner? {
      FindsOwn(x.found.rows, items);
      RepresentedIsPutAll(OwnerOf(KeyOf(x)), x.found.rows, x.ts, x.found.rows.Keys, env.mutations, items);
      assert [] + env.mutations == env.mutations;
    }
  }

  /**
   * A POST leaves the fold of upserts of its records, and the collection touched, on either
   * backend. What Spanner has buffered can always be applied.
   */
  lemma PostLeaves(t: Tables, x: Context, env: Env, items: seq<Item>, invalid: set<string>)
    requires Sound(x) && x.found == CollectionAt(t, KeyOf(x)) && DistinctIds(items)
    requires env.fault.None? && Represented(x, env, x.found.rows, items)
    ensures var p := HandlePost(x, env, NOTHING, items, invalid).p;
      && CommitTables(t, p).Ok?
      && After(t, x, p) == Collection(Some(x.ts), PostedRows(x, env, items), x.found.batches)
  {
    var p := HandlePost(x, env, NOTHING, items, invalid).p;
    PostPending(x, env, items);
    CommitSucceeds(t, x, p);
    CommitHere(t, x, p);
  }

  /**
   * The same POST to the same rows at the same time leaves the same version on both backends, and
   * the same rows if and only if no two of the ids, posted or stored, are equal only under
   * MySQL's collation.
   */
  lemma BackendsAgreeOnPost(t: Tables, x: Context, env: Env, t': Tables, x': Context, env': Env, items: seq<Item>,
                            invalid: set<string>)
    requires x.b.Mysql? && Sound(x) && x.found == CollectionAt(t, KeyOf(x)) && env.fault.None? && env.faulty == {}
    requires x'.b.Spanner? && Sound(x') && x'.found == CollectionAt(t', KeyOf(x')) && env'.fault.None?
    requires Represented(x', env', x'.found.rows, items)
    requires DistinctIds(items) && x'.found.rows == x.found.rows && x'.ts == x.ts && Apart(x.found.rows.Keys)
    ensures var p, p' := HandlePost(x, env, NOTHING, items, invalid).p, HandlePost(x', env', NOTHING, items, invalid).p;
      && CommitTables(t, p).Ok? && CommitTables(t', p').Ok?
      && After(t', x', p').version == After(t, x, p).version
      && (After(t', x', p').rows == After(t, x, p).rows <==> Apart(x.found.rows.Keys + Ids(items)))
  {
    PostLeaves(t, x, env, items, invalid);
    PostLeaves(t', x', env', items, invalid);
    NoneFaulty(items);
    PutAllIsExact(x.found.rows, x.ts, items);
  }

  // ----- a DELETE of records -----

  /** Whether the backend takes the id for one of the given ones. */
  predicate Names(b: Backend, ids: set<string>, id: string) {
    exists i | i in ids :: SameText(b, id, i)
  }

  /** A DELETE of records removes exactly those that the ids name, and touches the collection. */
  lemma DeleteLeaves(t: Tables, x: Context, ids: set<string>, id: string)
    requires Sound(x) && x.found == CollectionAt(t, KeyOf(x))
    ensures var p := DeleteBsos(x, NOTHING, ids);
      && CommitTables(t, p).Ok?
      && Lookup(After(t, x, p).rows, id) == (if Names(x.b, ids, id) then None else Lookup(x.found.rows, id))
      && After(t, x, p).version == Some(x.ts) && After(t, x, p).batches == x.found.batches
  {}

  // ----- the commit of a batch -----

  /** The child rows that hold some records. */
  function ChildrenOf(items: seq<Item>): BatchCommit.Children {
    map id | id in Ids(items) && Latest(items, id).Some? :: Latest(items, id).value
  }

  lemma ChildrenHold(items: seq<Item>)
    requires DistinctIds(items)
    ensures BatchCommit.Holds(ChildrenOf(items), items)
  {
    forall i | 0 <= i < |items|
      ensures items[i].id in ChildrenOf(items) && ChildrenOf(items)[items[i].id] == items[i]
    {
      LatestOfDistinct(items, i);
    }
  }

  /**
   * MySQL: what a commit applies is the shortcut of posting the last records first, as long as no
   * two of the ids are equal only under the collation.
   */
  lemma MysqlCommitIsShortcut(x: Context, env: Env, p: Pending, last: seq<Item>, uploaded: seq<Item>)
    requires x.b.Mysql? && env.faulty == {} && Applies(x, env, p, last, uploaded)
    requires Apart(x.found.rows.Keys + Ids(last) + Ids(uploaded))
    ensures RowsAt(x, p) == PostThenCommit(x.found.rows, x.ts, uploaded, last) && MutationsOf(x, p) == []
    ensures Ids(uploaded) !! Ids(last) ==> RowsAt(x, p) == PutAll(x.found.rows, x.ts, uploaded + last)
  {
    NoneFaulty(last);
    NoneFaulty(uploaded);
    PutAllOfApart(x.found.rows, x.ts, last);
    PutAllKeys(x.found.rows, x.ts, last);
    PutAllOfApart(PutAll(x.found.rows, x.ts, last), x.ts, uploaded);
    if Ids(uploaded) !! Ids(last) { ShortcutOfDisjoint(x.found.rows, x.ts, uploaded, last); }
  }

  /**
   * Spanner: what a commit applies are the statements that commit the batch and then the buffered
   * mutations. With disjoint ids the transaction commits, and every row is as if the last records
   * had been in the batch, but for `modified` of a record that is about the ttl alone.
   */
  lemma SpannerCommitIsShortcut(x: Context, env: Env, p: Pending, last: seq<Item>, uploaded: seq<Item>)
    requires x.b.Spanner? && Applies(x, env, p, last, uploaded) && |last| > 0
    requires env.fault.None? && Represented(x, env, x.found.rows, last)
    requires DistinctIds(last) && DistinctIds(uploaded) && Ids(uploaded) !! Ids(last)
    ensures var rows := ApplyAll(OwnerOf(KeyOf(x)), RowsAt(x, p), MutationsOf(x, p));
      var together := BatchCommit.Commit(x.found.rows, x.ts, ChildrenOf(uploaded) + ChildrenOf(last));
      && rows.Ok?
      && forall id :: Lookup(rows.value, id)
                   == CommitShortcut.Posted(Lookup(x.found.rows, id), Lookup(together, id),
                                            Lookup(ChildrenOf(last), id))
  {
    ChildrenHold(uploaded);
    ChildrenHold(last);
    var children :|
      BatchCommit.Holds(children, uploaded) && RowsAt(x, p) == BatchCommit.Commit(x.found.rows, x.ts, children);
    HoldsOne(children, ChildrenOf(uploaded), uploaded);
    var owner := OwnerOf(KeyOf(x));
    SpannerShortcut(owner, x.found.rows, x.ts, children, ChildrenOf(last), last, env.mutations, "");
    forall id
      ensures Lookup(ApplyAll(owner, RowsAt(x, p), MutationsOf(x, p)).value, id)
           == CommitShortcut.Posted(Lookup(x.found.rows, id),
                     Lookup(BatchCommit.Commit(x.found.rows, x.ts, children + ChildrenOf(last)), id),
                     Lookup(ChildrenOf(last), id))
    {
      SpannerShortcut(owner, x.found.rows, x.ts, children, ChildrenOf(last), last, env.mutations, id);
    }
  }

  lemma HoldsOne(a: BatchCommit.Children, b: BatchCommit.Children, items: seq<Item>)
    requires BatchCommit.Holds(a, items) && BatchCommit.Holds(b, items)
    ensures a == b
  {}
}
