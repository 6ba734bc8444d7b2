/** Batches over whole runs: nothing uploaded is lost or applied early, and no batch is applied twice. */
module BatchRuns {
  import opened Wrappers
  import opened Bso
  import opened Store
  import opened Handlers
  import opened Footprint
  import opened Protocol
  import opened Versions
  import opened StorageTime
  import opened BatchLife
  import SpannerPost

  // ----- the log tells what was uploaded -----

  function EntryDone(e: Entry): Done<Reply>
    requires e.Served?
  {
    CheckThenAct(e.x, e.env, Visible(e.x.b, e.x.found.version), e.r)
  }

  function EntryEffect(e: Entry): Effect {
    if e.Served? && e.r.action.PostBatch? && Passed(EntryDone(e))
    then BatchEffect(e.x, e.env, e.r.action, EntryDone(e).r.value) else NoEffect
  }

  predicate On(e: Entry, k: Key) { e.Served? && KeyOf(e.x) == k }

  /** The records uploaded to a batch since it was created, in order. */
  function Uploaded(log: seq<Entry>, k: Key, id: int): seq<Item> {
    if |log| == 0 then []
    else
      var before, last := Uploaded(log[..|log| - 1], k, id), log[|log| - 1];
      var effect := EntryEffect(last);
      if On(last, k) && effect.Submitted? && effect.id == id
      then (if effect.isNew then [] else before) + effect.items else before
  }

  predicate StandsFor(s: State, k: Key, id: int) {
    id in CollectionAt(s.t, k).batches ==>
      Decodes(s.b, CollectionAt(s.t, k).batches[id].content, Uploaded(s.log, k, id))
  }

  ghost predicate AllStand(s: State) { forall k, id :: StandsFor(s, k, id) }

  // ----- one commit -----

  function EntryOf(s: State, sid: int): Entry
    requires sid in s.sessions && s.sessions[sid].phase.Acted?
  {
    Served(s.sessions[sid].r, s.sessions[sid].phase.x, s.sessions[sid].phase.env)
  }

  lemma OtherBatches(x: Context, env: Env, action: Action)
    requires !action.PostBatch?
    ensures var done := Handle(x, env, NOTHING, action);
      done.r.Ok? ==> BatchesAt(x, done.p) == x.found.batches || BatchesAt(x, done.p) == map[]
  {
    match action
    case Put(item) => PostCallBatches(x, env, NOTHING, [item]);
    case Post(items, invalid) => PostCallBatches(x, env, NOTHING, items);
    case _ =>
  }

  /** The batches after a commit fit what the log says about it. */
  predicate Logged(x: Context, after: Batches, effect: Effect) {
    Effects(x, x.found.batches, after, effect) || (effect == NoEffect && after == map[])
  }

  lemma ServedBatches(x: Context, env: Env, seen: Option<int>, r: Request)
    requires seen == Visible(x.b, x.found.version)
    requires forall id | id in x.found.batches :: exists items :: Decodes(x.b, x.found.batches[id].content, items)
    ensures var done := CheckThenAct(x, env, seen, r);
      done.r.Ok? ==> Logged(x, BatchesAt(x, done.p), EntryEffect(Served(r, x, env)))
  {
    var done := CheckThenAct(x, env, seen, r);
    if done.r.Ok? {
      if !Passed(done) {
        NotPassed(x, env, seen, r);
      } else {
        match r.action
        case PostBatch(batch, commit, items, invalid) =>
          UploadEffects(x, env, batch, items, invalid);
          if batch.Some? && batch.value in x.found.batches {
            var uploaded :| Decodes(x.b, x.found.batches[batch.value].content, uploaded);
            CommitApplies(x, env, batch, items, invalid, uploaded);
          } else {
            CommitApplies(x, env, batch, items, invalid, []);
          }
        case _ => OtherBatches(x, env, r.action);
      }
    }
  }

  /** What a commit does to the batches of its collection; elsewhere they stay. */
  lemma CommitBatches(s: State, sid: int)
    requires Inv(s) && AllStand(s) && Enabled(s, Commit(sid)) && CommitTables(s.t, DoneOf(s.sessions[sid]).p).Ok?
    ensures var e, s' := EntryOf(s, sid), Step(s, Commit(sid));
      && s'.log == s.log + [e]
      && SessionInv(s.b, s.t, s.sessions[sid]) && e.x.found == CollectionAt(s.t, KeyOf(e.x)) && e.x.b == s.b
      && DoneOf(s.sessions[sid]) == EntryDone(e)
      && CollectionAt(s'.t, KeyOf(e.x)).batches == BatchesAt(e.x, EntryDone(e).p)
      && Logged(e.x, CollectionAt(s'.t, KeyOf(e.x)).batches, EntryEffect(e))
  {
    var session := s.sessions[sid];
    assert SessionInv(s.b, s.t, session);
    var x := session.phase.x;
    CommitShape(s, sid);
    CommitHere(s.t, x, DoneOf(session).p);
    forall id | id in x.found.batches
      ensures exists items :: Decodes(x.b, x.found.batches[id].content, items)
    {
      assert StandsFor(s, KeyOf(x), id);
    }
    ServedBatches(x, session.phase.env, session.phase.seen, session.r);
  }

  lemma CommitBatchesElsewhere(s: State, sid: int, k: Key)
    requires Inv(s) && Enabled(s, Commit(sid)) && k != KeyFor(s.b, s.sessions[sid].r)
    ensures CollectionAt(Step(s, Commit(sid)).t, k).batches == CollectionAt(s.t, k).batches
  {
    var session := s.sessions[sid];
    assert SessionInv(s.b, s.t, session);
    CommitShape(s, sid);
    if CommitTables(s.t, DoneOf(session).p).Ok? {
      CommitElsewhere(s.t, session.phase.x, DoneOf(session).p, k);
    }
  }

  /** How the log of one collection's batch grows. */
  lemma UploadedSnoc(log: seq<Entry>, e: Entry, k: Key, id: int)
    ensures Uploaded(log + [e], k, id) ==
      (var effect := EntryEffect(e);
       if On(e, k) && effect.Submitted? && effect.id == id
       then (if effect.isNew then [] else Uploaded(log, k, id)) + effect.items else Uploaded(log, k, id))
  {}

  lemma EffectsDecode(x: Context, before: Batches, after: Batches, effect: Effect, id: int, uploaded: seq<Item>)
    requires Effects(x, before, after, effect) && id in after
    requires id in before ==> Decodes(x.b, before[id].content, uploaded)
    ensures Decodes(x.b, after[id].content,
                    if effect.Submitted? && effect.id == id
                    then (if effect.isNew then [] else uploaded) + effect.items else uploaded)
  {
    if effect.Submitted? && effect.id == id {
      var sofar := if effect.isNew then [] else uploaded;
      NewBatchDecodes(x);
      var content := if effect.isNew then NewBatch(x).content else before[id].content;
      if effect.items == [] && after[id].content == content {
        assert sofar + effect.items == sofar;
      } else {
        AppendDecodes(x.b, content, sofar, effect.items);
      }
    }
  }

  lemma LoggedDecodes(e: Entry, after: Batches, id: int, uploaded: seq<Item>)
    requires e.Served? && Logged(e.x, after, EntryEffect(e))
    requires id in e.x.found.batches ==> Decodes(e.x.b, e.x.found.batches[id].content, uploaded)
    ensures var effect := EntryEffect(e);
      id in after ==>
        Decodes(e.x.b, after[id].content,
                if effect.Submitted? && effect.id == id
                then (if effect.isNew then [] else uploaded) + effect.items else uploaded)
  {
    if id in after { EffectsDecode(e.x, e.x.found.batches, after, EntryEffect(e), id, uploaded); }
  }

  lemma CommitStands(s: State, sid: int, k: Key, id: int)
    requires Inv(s) && AllStand(s) && Enabled(s, Commit(sid)) && CommitTables(s.t, DoneOf(s.sessions[sid]).p).Ok?
    ensures StandsFor(Step(s, Commit(sid)), k, id)
  {
    var e := EntryOf(s, sid);
    CommitBatches(s, sid);
    UploadedSnoc(s.log, e, k, id);
    assert StandsFor(s, k, id);
    if k == KeyOf(e.x) {
      LoggedDecodes(e, CollectionAt(Step(s, Commit(sid)).t, k).batches, id, Uploaded(s.log, k, id));
    } else {
      CommitBatchesElsewhere(s, sid, k);
    }
  }

  lemma StepStands(s: State, l: Label, k: Key, id: int)
    requires Inv(s) && AllStand(s) && Enabled(s, l)
    ensures StandsFor(Step(s, l), k, id)
  {
    assert StandsFor(s, k, id);
    if l.Commit? {
      if CommitTables(s.t, DoneOf(s.sessions[l.sid]).p).Ok? { CommitStands(s, l.sid, k, id); }
    } else if l.Wipe? {
      WipeAt(s.b, s.t, l.u, k);
      UploadedSnoc(s.log, Wiped(l.u), k, id);
    }
  }

  lemma StepAllStand(s: State, l: Label)
    requires Inv(s) && AllStand(s) && Enabled(s, l)
    ensures AllStand(Step(s, l))
  {
    forall k, id
      ensures StandsFor(Step(s, l), k, id)
    {
      StepStands(s, l, k, id);
    }
  }

  /**
   * In every state of every run each batch stands for exactly the records that have been uploaded
   * to it since it was created, in their order.
   */
  lemma {:induction false} RunStands(run: seq<State>, labels: seq<Label>, i: nat)
    requires IsRun(run, labels) && i < |run|
    ensures AllStand(run[i])
  {
    if i == 0 {
      NothingStands(run[0]);
    } else {
      RunStands(run, labels, i - 1);
      RunStepStands(run, labels, i - 1);
    }
  }

  lemma NothingStands(s: State)
    requires Init(s)
    ensures AllStand(s)
  {
    forall k, id
      ensures StandsFor(s, k, id)
    {
      assert id !in CollectionAt(s.t, k).batches;
    }
  }

  lemma RunStepStands(run: seq<State>, labels: seq<Label>, i: nat)
    requires IsRun(run, labels) && i < |labels| && AllStand(run[i])
    ensures AllStand(run[i + 1])
  {
    RunKeepsInv(run, labels, i);
    StepAllStand(run[i], labels[i]);
  }

  /** The step commits a POST with commit. */
  predicate CommitsBatch(s: State, l: Label, k: Key) {
    Carried(s, l, k) && s.sessions[l.sid].r.action.PostBatch? && s.sessions[l.sid].r.action.commit
  }

  /** The records that the commit of an entry has to apply. */
  function Due(s: State, e: Entry): seq<Item> {
    var effect := EntryEffect(e);
    if effect.Committed? && !effect.isNew then Uploaded(s.log, KeyOf(e.x), effect.id) else []
  }

  lemma ServedApplies(e: Entry, uploaded: seq<Item>)
    requires e.Served? && Passed(EntryDone(e)) && e.r.action.PostBatch? && e.r.action.commit
    requires e.r.action.batch.None? ==> uploaded == []
    requires e.r.action.batch.Some? && e.r.action.batch.value in e.x.found.batches ==>
      Decodes(e.x.b, e.x.found.batches[e.r.action.batch.value].content, uploaded)
    ensures Effects(e.x, e.x.found.batches, BatchesAt(e.x, EntryDone(e).p), EntryEffect(e))
    ensures Applies(e.x, e.env, EntryDone(e).p, PostedItems(e.r.action.items, EntryDone(e).r.value), uploaded)
  {
    CommitApplies(e.x, e.env, e.r.action.batch, e.r.action.items, e.r.action.invalid, uploaded);
  }

  lemma CommitLeavesRows(s: State, sid: int)
    requires Inv(s) && Enabled(s, Commit(sid)) && CommitTables(s.t, DoneOf(s.sessions[sid]).p).Ok?
    ensures var x, p := s.sessions[sid].phase.x, DoneOf(s.sessions[sid]).p;
      SpannerPost.ApplyAll(OwnerOf(KeyOf(x)), RowsAt(x, p), MutationsOf(x, p))
        == Ok(CollectionAt(Step(s, Commit(sid)).t, KeyOf(x)).rows)
  {
    assert SessionInv(s.b, s.t, s.sessions[sid]);
    CommitShape(s, sid);
    CommitHere(s.t, s.sessions[sid].phase.x, DoneOf(s.sessions[sid]).p);
  }

  /**
   * The commit of a batch applies all that was uploaded to it, once, and the batch is gone. What
   * Spanner has buffered is applied on top.
   */
  lemma BatchIsApplied(run: seq<State>, labels: seq<Label>, i: nat, k: Key)
    requires IsRun(run, labels) && i < |labels| && CommitsBatch(run[i], labels[i], k)
    ensures var e := EntryOf(run[i], labels[i].sid);
      var before, after, p := CollectionAt(run[i].t, k), CollectionAt(run[i + 1].t, k), EntryDone(e).p;
      && EntryEffect(e).Committed? && after.batches == before.batches - {EntryEffect(e).id}
      && e.x.found == before && KeyOf(e.x) == k
      && Applies(e.x, e.env, p, PostedItems(e.r.action.items, EntryDone(e).r.value), Due(run[i], e))
      && SpannerPost.ApplyAll(OwnerOf(k), RowsAt(e.x, p), MutationsOf(e.x, p)) == Ok(after.rows)
  {
    var s, sid := run[i], labels[i].sid;
    var e := EntryOf(s, sid);
    RunKeepsInv(run, labels, i);
    RunStands(run, labels, i);
    CommitBatches(s, sid);
    CommitLeavesRows(s, sid);
    assert StandsFor(s, k, EntryEffect(e).id);
    ServedApplies(e, Due(s, e));
  }
}
