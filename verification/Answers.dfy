/** The answer to a POST accounts for every id. */
module Answers {
  import opened Wrappers
  import opened Bso
  import opened Store
  import opened Handlers

  function Listed(ids: seq<string>): set<string> { set id | id in ids }

  lemma ListedIds(items: seq<Item>)
    ensures Listed(IdList(items)) == Ids(items)
  {}

  lemma {:induction false} WithoutIds(items: seq<Item>, faulty: set<string>)
    ensures Ids(Without(items, faulty)) == Ids(items) - faulty
  {
    if |items| > 0 {
      var before, last := items[..|items| - 1], items[|items| - 1];
      WithoutIds(before, faulty);
      assert items == before + [last];
      IdsSnoc(before, last);
      IdsSnoc(Without(before, faulty), last);
    }
  }

  predicate NoRepeats(ids: seq<string>) { forall i, j | 0 <= i < j < |ids| :: ids[i] != ids[j] }

  lemma NotAmong(items: seq<Item>)
    requires DistinctIds(items) && |items| > 0
    ensures items[|items| - 1].id !in Ids(items[..|items| - 1])
  {}

  lemma {:induction false} WithoutDistinct(items: seq<Item>, faulty: set<string>)
    requires DistinctIds(items)
    ensures DistinctIds(Without(items, faulty))
  {
    if |items| > 0 {
      var before, last := items[..|items| - 1], items[|items| - 1];
      WithoutDistinct(before, faulty);
      WithoutIds(before, faulty);
      var kept := Without(before, faulty);
      forall i | 0 <= i < |kept|
        ensures kept[i].id != last.id
      {
        NotAmong(items);
        assert kept[i].id in Ids(kept);
      }
    }
  }

  predicate Accounts(reply: Reply, items: seq<Item>, invalid: set<string>) {
    && NoRepeats(reply.success)
    && Listed(reply.success) !! reply.failed
    && Listed(reply.success) + reply.failed == Ids(items) + invalid
  }

  /** Each id of an accepted body is listed once, as stored or as failed, with or without a batch. */
  lemma EveryIdAnswered(x: Context, env: Env, p: Pending, action: Action)
    requires action.Post? || action.PostBatch?
    requires DistinctIds(action.items) && Ids(action.items) !! action.invalid
    ensures var done := Handle(x, env, p, action);
      done.r.Ok? ==> Accounts(done.r.value, action.items, action.invalid)
  {
    var items := action.items;
    ListedIds(items);
    ListedIds(Without(items, env.faulty));
    WithoutIds(items, env.faulty);
    WithoutDistinct(items, env.faulty);
    if action.PostBatch? {
      BatchAnswer(x, env, p, action.batch, action.commit, items, action.invalid);
    }
  }

  lemma BatchAnswer(x: Context, env: Env, p: Pending, batch: Option<int>, commit: bool, items: seq<Item>,
                    invalid: set<string>)
    requires DistinctIds(items) && Ids(items) !! invalid
    ensures var done := HandleBatch(x, env, p, batch, commit, items, invalid);
      done.r.Ok? ==> Accounts(done.r.value, items, invalid)
  {}
}
