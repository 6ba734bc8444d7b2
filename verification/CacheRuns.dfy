/**
 * The collection cache shared by sessions at work at the same time: lookups, the two halves of a
 * `put`, new collections, commits and rollbacks interleave in any way. Sessions keep to the
 * source's discipline of remembering nothing while they are in a write transaction. A lookup that
 * the cache answers changes nothing and is not a step.
 */
module CacheRuns {
  import opened Wrappers
  import opened Store
  import opened Collections
  import opened Collation

  /** `half` is what `put` has entered by name and not yet by id. */
  datatype Session = Session(write: bool, created: Names, half: Option<(I32, string)>)

  datatype State = State(
    b: Backend, table: Names, byName: map<string, I32>, byId: map<I32, string>, sessions: map<int, Session>)

  datatype Label =
    | Start(sid: int, write: bool)
    | FindName(sid: int, name: string, id: I32)
    | FindId(sid: int, id: I32)
    | FinishPut(sid: int)
    | InsertIgnore(sid: int, name: string, serial: I32)
    | Create(sid: int, name: string)
    | Commit(sid: int)
    | Rollback(sid: int)

  function ViewOf(s: State, sid: int): Names
    requires sid in s.sessions
  {
    s.table + s.sessions[sid].created
  }

  /** Whether the rows can be added: ids and names are unique. */
  predicate Compatible(b: Backend, t: Names, created: Names) {
    && created.Keys !! t.Keys
    && forall i, j | i in created && j in t :: !SameText(b, created[i], t[j])
  }

  /** The row a query for the name finds. */
  predicate Finds(b: Backend, t: Names, name: string, id: I32) { id in t && SameText(b, t[id], name) }

  predicate Init(s: State) {
    && Unique(s.b, s.table) && HasStd(s.table) && Reserved(s.b, s.table)
    && Backed(s.b, s.byName, s.byId, s.table) && Exact(s.byId, s.table)
    && s.sessions == map[]
  }

  /** AUTO_INCREMENT is above every id, and an INSERT waits for a transaction that has inserted the same name. */
  predicate Blocks(b: Backend, session: Session, own: bool, name: string, serial: I32) {
    exists id | id in session.created :: id >= serial || (!own && SameText(b, session.created[id], name))
  }

  predicate Enabled(s: State, l: Label) {
    match l
    case Start(sid, write) => sid !in s.sessions
    case FindName(sid, name, id) =>
      sid in s.sessions && s.sessions[sid].half.None? && Finds(s.b, ViewOf(s, sid), name, id)
    case FindId(sid, id) => sid in s.sessions && s.sessions[sid].half.None? && id in ViewOf(s, sid)
    case FinishPut(sid) => sid in s.sessions && s.sessions[sid].half.Some?
    case InsertIgnore(sid, name, serial) =>
      && sid in s.sessions && s.b.Mysql?
      && (forall id | id in s.table :: id < serial)
      && forall other | other in s.sessions :: !Blocks(s.b, s.sessions[other], other == sid, name, serial)
    case Create(sid, name) =>
      && sid in s.sessions && s.b.Spanner? && s.sessions[sid].write
      && forall id | id in ViewOf(s, sid) :: ViewOf(s, sid)[id] != name
    case Commit(sid) => sid in s.sessions
    case Rollback(sid) => sid in s.sessions
  }

  /** The first half of a `put`. */
  function BeginPut(s: State, sid: int, id: I32, name: string): State
    requires sid in s.sessions
  {
    var session := s.sessions[sid];
    if session.write then s
    else s.(byName := s.byName[name := id], sessions := s.sessions[sid := session.(half := Some((id, name)))])
  }

  function FinishPutStep(s: State, sid: int): State
    requires sid in s.sessions && s.sessions[sid].half.Some?
  {
    var session := s.sessions[sid];
    var (id, name) := session.half.value;
    s.(byId := s.byId[id := name], sessions := s.sessions[sid := session.(half := None)])
  }

  /** INSERT IGNORE, which does nothing if the index takes the name for one that is there. */
  function InsertIgnoreStep(s: State, sid: int, name: string, serial: I32): State
    requires sid in s.sessions
  {
    var session := s.sessions[sid];
    if exists id :: Finds(s.b, ViewOf(s, sid), name, id) then s
    else if session.write then
      s.(sessions := s.sessions[sid := session.(created := session.created[serial := name])])
    else s.(table := s.table[serial := name])
  }

  /** An id that is taken makes the INSERT fail. */
  function CreateStep(s: State, sid: int, name: string): State
    requires sid in s.sessions
  {
    var session, id := s.sessions[sid], NextId(ViewOf(s, sid));
    if id in ViewOf(s, sid) then s
    else s.(sessions := s.sessions[sid := session.(created := session.created[id := name])])
  }

  /** Of two sessions that have created the same id or name one commits. */
  function CommitStep(s: State, sid: int): State
    requires sid in s.sessions
  {
    var session := s.sessions[sid];
    var table := if Compatible(s.b, s.table, session.created) then s.table + session.created else s.table;
    s.(table := table, sessions := s.sessions - {sid})
  }

  function Step(s: State, l: Label): State
    requires Enabled(s, l)
  {
    match l
    case Start(sid, write) => s.(sessions := s.sessions[sid := Session(write, map[], None)])
    case FindName(sid, name, id) => BeginPut(s, sid, id, name)
    case FindId(sid, id) => BeginPut(s, sid, id, ViewOf(s, sid)[id])
    case FinishPut(sid) => FinishPutStep(s, sid)
    case InsertIgnore(sid, name, serial) => InsertIgnoreStep(s, sid, name, serial)
    case Create(sid, name) => CreateStep(s, sid, name)
    case Commit(sid) => CommitStep(s, sid)
    case Rollback(sid) => s.(sessions := s.sessions - {sid})
  }

  // ----- what every step keeps -----

  predicate SessionInv(b: Backend, t: Names, session: Session) {
    && Unique(b, session.created)
    && (forall id | id in session.created :: id >= FIRST_CUSTOM_COLLECTION_ID)
    && (!session.write ==> session.created == map[])
    && (session.half.Some? ==> Finds(b, t, session.half.value.1, session.half.value.0))
  }

  predicate Inv(s: State) {
    && Unique(s.b, s.table) && HasStd(s.table) && Reserved(s.b, s.table) && Backed(s.b, s.byName, s.byId, s.table)
    && forall sid | sid in s.sessions :: SessionInv(s.b, s.table, s.sessions[sid])
  }

  /** Rows are only ever added, each with a custom id. */
  predicate Grows(t: Names, t': Names) {
    && (forall id | id in t :: id in t' && t'[id] == t[id])
    && (forall id | id in t' && id !in t :: id >= FIRST_CUSTOM_COLLECTION_ID)
  }

  lemma GrowthKeepsSessions(s: State, s': State)
    requires Inv(s) && s'.b == s.b && Grows(s.table, s'.table)
    requires forall sid | sid in s'.sessions :: sid in s.sessions && s'.sessions[sid] == s.sessions[sid]
    ensures forall sid | sid in s'.sessions :: SessionInv(s'.b, s'.table, s'.sessions[sid])
  {}

  lemma GrowthKeepsCache(s: State, t: Names)
    requires Inv(s) && Grows(s.table, t)
    ensures HasStd(t) && Reserved(s.b, t) && Backed(s.b, s.byName, s.byId, t)
  {}

  lemma BeginPutKeepsInv(s: State, sid: int, id: I32, name: string)
    requires Inv(s) && sid in s.sessions && Finds(s.b, ViewOf(s, sid), name, id)
    ensures var s' := BeginPut(s, sid, id, name); Inv(s') && Grows(s.table, s'.table)
  {}

  lemma FindKeepsInv(s: State, l: Label)
    requires Inv(s) && Enabled(s, l) && (l.FindName? || l.FindId?)
    ensures Inv(Step(s, l)) && Grows(s.table, Step(s, l).table)
  {
    match l
    case FindName(sid, name, id) => BeginPutKeepsInv(s, sid, id, name);
    case FindId(sid, id) =>
      SameItself(s.b, ViewOf(s, sid)[id]);
      BeginPutKeepsInv(s, sid, id, ViewOf(s, sid)[id]);
  }

  lemma FinishPutKeepsInv(s: State, l: Label)
    requires Inv(s) && Enabled(s, l) && l.FinishPut?
    ensures Inv(Step(s, l)) && Grows(s.table, Step(s, l).table)
  {}

  /** AUTO_INCREMENT never gives a reserved id. */
  lemma SerialIsCustom(s: State, l: Label)
    requires Inv(s) && Enabled(s, l) && l.InsertIgnore?
    ensures l.serial >= FIRST_CUSTOM_COLLECTION_ID && l.serial !in ViewOf(s, l.sid)
  {
    assert 100 in s.table;
    assert !Blocks(s.b, s.sessions[l.sid], true, l.name, l.serial);
  }

  lemma InsertIgnoreKeepsInv(s: State, l: Label)
    requires Inv(s) && Enabled(s, l) && l.InsertIgnore?
    ensures Inv(Step(s, l)) && Grows(s.table, Step(s, l).table)
  {
    var s', session := Step(s, l), s.sessions[l.sid];
    SerialIsCustom(s, l);
    assert SessionInv(s.b, s.table, session);
    if forall id :: !Finds(s.b, ViewOf(s, l.sid), l.name, id) {
      NotFoundIsNew(s, l.sid, l.name);
      if session.write {
        NewNameKeepsUnique(s.b, session.created, l.name, l.serial);
      } else {
        NewNameKeepsUnique(s.b, s.table, l.name, l.serial);
        GrowthKeepsSessions(s, s');
        GrowthKeepsCache(s, s'.table);
      }
    }
  }

  lemma NotFoundIsNew(s: State, sid: int, name: string)
    requires sid in s.sessions && forall id :: !Finds(s.b, ViewOf(s, sid), name, id)
    requires s.sessions[sid].write || s.sessions[sid].created == map[]
    ensures forall id | id in s.sessions[sid].created :: !SameText(s.b, s.sessions[sid].created[id], name)
    ensures !s.sessions[sid].write ==> forall id | id in s.table :: !SameText(s.b, s.table[id], name)
  {
    forall id | id in s.sessions[sid].created
      ensures !SameText(s.b, s.sessions[sid].created[id], name)
    {
      assert !Finds(s.b, ViewOf(s, sid), name, id);
    }
    if !s.sessions[sid].write {
      forall id | id in s.table
        ensures !SameText(s.b, s.table[id], name)
      {
        assert !Finds(s.b, ViewOf(s, sid), name, id);
      }
    }
  }

  lemma CreateKeepsInv(s: State, l: Label)
    requires Inv(s) && Enabled(s, l) && l.Create?
    ensures Inv(Step(s, l)) && Grows(s.table, Step(s, l).table)
  {
    var session := s.sessions[l.sid];
    assert SessionInv(s.b, s.table, session);
    NextIdIsNew(ViewOf(s, l.sid));
    NamesInView(s, l.sid);
  }

  lemma NamesInView(s: State, sid: int)
    requires sid in s.sessions
    ensures forall id | id in s.sessions[sid].created ::
      id in ViewOf(s, sid) && ViewOf(s, sid)[id] == s.sessions[sid].created[id]
  {}

  lemma CommitKeepsInv(s: State, l: Label)
    requires Inv(s) && Enabled(s, l) && l.Commit?
    ensures Inv(Step(s, l)) && Grows(s.table, Step(s, l).table)
  {
    var s' := Step(s, l);
    CommitKeepsUnique(s, l.sid);
    GrowthKeepsSessions(s, s');
    GrowthKeepsCache(s, s'.table);
  }

  lemma CommitKeepsUnique(s: State, sid: int)
    requires Inv(s) && sid in s.sessions
    ensures var t := CommitStep(s, sid).table; Unique(s.b, t) && Grows(s.table, t)
  {}

  lemma StepKeepsInv(s: State, l: Label)
    requires Inv(s) && Enabled(s, l)
    ensures Inv(Step(s, l)) && Grows(s.table, Step(s, l).table)
  {
    match l
    case Start(sid, write) =>
    case FindName(sid, name, id) => FindKeepsInv(s, l);
    case FindId(sid, id) => FindKeepsInv(s, l);
    case FinishPut(sid) => FinishPutKeepsInv(s, l);
    case InsertIgnore(sid, name, serial) => InsertIgnoreKeepsInv(s, l);
    case Create(sid, name) => CreateKeepsInv(s, l);
    case Commit(sid) => CommitKeepsInv(s, l);
    case Rollback(sid) =>
  }

  // ----- runs -----

  predicate IsRun(run: seq<State>, labels: seq<Label>) {
    && |run| == |labels| + 1
    && Init(run[0])
    && forall i | 0 <= i < |labels| :: Enabled(run[i], labels[i]) && run[i + 1] == Step(run[i], labels[i])
  }

  lemma {:induction false} RunKeepsInv(run: seq<State>, labels: seq<Label>, i: nat)
    requires IsRun(run, labels) && i < |run|
    ensures run[i].b == run[0].b && Inv(run[i])
  {
    if i > 0 {
      var n := i - 1;
      RunKeepsInv(run, labels, n);
      StepKeepsInv(run[n], labels[n]);
    }
  }

  lemma GrowsOn(a: Names, b: Names, c: Names)
    requires Grows(a, b) && Grows(b, c)
    ensures Grows(a, c)
  {}

  lemma {:induction false} RunGrows(run: seq<State>, labels: seq<Label>, i: nat, j: nat)
    requires IsRun(run, labels) && i <= j < |run|
    ensures Grows(run[i].table, run[j].table)
    decreases j
  {
    if i < j {
      RunGrows(run, labels, i, j - 1);
      RunKeepsInv(run, labels, j - 1);
      StepKeepsInv(run[j - 1], labels[j - 1]);
      GrowsOn(run[i].table, run[j - 1].table, run[j].table);
    }
  }

  /**
   * In every state of every run, also between the two halves of a `put` and whatever has been
   * rolled back: an id that the cache answers is the one a query finds, and a name that it answers
   * is that of the table, up to what the backend takes for equal.
   */
  lemma CacheIsSound(run: seq<State>, labels: seq<Label>, i: nat, name: string, id: I32)
    requires IsRun(run, labels) && i < |run|
    ensures var s := run[i];
      && Unique(s.b, s.table)
      && (name in s.byName ==> IdOf(s.b, s.table, name) == Some(s.byName[name]))
      && (id in s.byId ==> Finds(s.b, s.table, s.byId[id], id))
  {
    RunKeepsInv(run, labels, i);
  }

  /** What a cache has once answered stays true: ids are never given to another name. */
  lemma AnswersLast(run: seq<State>, labels: seq<Label>, i: nat, j: nat, name: string)
    requires IsRun(run, labels) && i <= j < |run| && Lookup(run[i].byName, name).Some?
    ensures Unique(run[j].b, run[j].table) && IdOf(run[j].b, run[j].table, name) == Lookup(run[i].byName, name)
  {
    RunKeepsInv(run, labels, i);
    RunKeepsInv(run, labels, j);
    RunGrows(run, labels, i, j);
  }

  /** New collections get ids from 101 on that no other has, so that ids and names stay one to one. */
  lemma NewIdsAreFresh(run: seq<State>, labels: seq<Label>, i: nat, j: nat, id: I32, id': I32)
    requires IsRun(run, labels) && i <= j < |run|
    requires id in run[j].table && id' in run[j].table && id !in run[i].table
    ensures id >= FIRST_CUSTOM_COLLECTION_ID && forall k | 0 <= k < |STD_COLLS| :: STD_COLLS[k].0 != id
    ensures SameText(run[j].b, run[j].table[id], run[j].table[id']) ==> id == id'
  {
    RunKeepsInv(run, labels, i);
    RunKeepsInv(run, labels, j);
    RunGrows(run, labels, i, j);
  }

  /** Why the discipline matters: a row remembered before its transaction is rolled back is not in the table. */
  lemma RememberingTooEarly(s: State, sid: int, id: I32)
    requires Inv(s) && sid in s.sessions && id in s.sessions[sid].created && id !in s.table
    ensures !Backed(s.b, s.byName[s.sessions[sid].created[id] := id], s.byId, Step(s, Rollback(sid)).table)
  {
    var name := s.sessions[sid].created[id];
    assert name in s.byName[name := id];
  }

  // ----- the spelling of names -----

  /** If the step ends a `put`, it puts the name as it is stored. */
  predicate SpelledAsStored(s: State, l: Label) {
    l.FinishPut? && Enabled(s, l) ==>
      Lookup(s.table, s.sessions[l.sid].half.value.0) == Some(s.sessions[l.sid].half.value.1)
  }

  lemma StepKeepsExact(s: State, l: Label)
    requires Inv(s) && Enabled(s, l) && Exact(s.byId, s.table)
    ensures Exact(Step(s, l).byId, Step(s, l).table) <==> SpelledAsStored(s, l)
  {}

  /**
   * The cache has told names as they are stored in every state up to some point if and only if no
   * lookup has put a name that was spelled otherwise.
   */
  lemma {:induction false} NamesAreExact(run: seq<State>, labels: seq<Label>, i: nat)
    requires IsRun(run, labels) && i < |run|
    ensures (forall j | 0 <= j <= i :: Exact(run[j].byId, run[j].table))
      <==> (forall j | 0 <= j < i :: SpelledAsStored(run[j], labels[j]))
  {
    if i > 0 {
      var n := i - 1;
      NamesAreExact(run, labels, n);
      RunKeepsInv(run, labels, n);
      if Exact(run[n].byId, run[n].table) { StepKeepsExact(run[n], labels[n]); }
      assert (forall j | 0 <= j <= i :: Exact(run[j].byId, run[j].table))
        <==> (forall j | 0 <= j <= n :: Exact(run[j].byId, run[j].table)) && Exact(run[i].byId, run[i].table);
      assert (forall j | 0 <= j < i :: SpelledAsStored(run[j], labels[j]))
        <==> (forall j | 0 <= j < n :: SpelledAsStored(run[j], labels[j])) && SpelledAsStored(run[n], labels[n]);
    }
  }

  /** Spanner compares names exactly. */
  lemma SpannerNamesAreExact(run: seq<State>, labels: seq<Label>, i: nat)
    requires IsRun(run, labels) && i < |run| && run[0].b.Spanner?
    ensures Exact(run[i].byId, run[i].table)
  {
    RunKeepsInv(run, labels, i);
  }

  /** The table that the migrations leave. */
  function StdTable(): Names {
    map[1 := "clients", 2 := "crypto", 3 := "forms", 4 := "history", 5 := "keys", 6 := "meta", 7 := "bookmarks",
        8 := "prefs", 9 := "tabs", 10 := "passwords", 11 := "addons", 12 := "addresses", 13 := "creditcards",
        100 := ""]
  }

  /** The length and the first letter tell these names apart. */
  function LengthAndInitial(name: string): (nat, char) { (|name|, if name == "" then ' ' else name[0]) }

  lemma FoldKeepsInitial(name: string)
    requires name == "" || (name[|name| - 1] != ' ' && 'a' <= name[0] <= 'z')
    ensures LengthAndInitial(Fold(name)) == LengthAndInitial(name)
  {}

  function InitialOf(id: I32): (nat, char) {
    match id as int
    case 1 => (7, 'c')
    case 2 => (6, 'c')
    case 3 => (5, 'f')
    case 4 => (7, 'h')
    case 5 => (4, 'k')
    case 6 => (4, 'm')
    case 7 => (9, 'b')
    case 8 => (5, 'p')
    case 9 => (4, 't')
    case 10 => (9, 'p')
    case 11 => (6, 'a')
    case 12 => (9, 'a')
    case 13 => (11, 'c')
    case _ => (0, ' ')
  }

  lemma StdInitial(id: I32)
    requires id in StdTable()
    ensures LengthAndInitial(StdTable()[id]) == InitialOf(id) && (1 <= id <= 13 || id == 100)
  {}

  lemma StdName(id: I32)
    requires id in StdTable()
    ensures LengthAndInitial(Fold(StdTable()[id])) == InitialOf(id) && (1 <= id <= 13 || id == 100)
  {
    StdInitial(id);
    FoldKeepsInitial(StdTable()[id]);
  }

  lemma InitialsDiffer(i: I32, j: I32)
    requires (1 <= i <= 13 || i == 100) && (1 <= j <= 13 || j == 100) && InitialOf(i) == InitialOf(j)
    ensures i == j
  {}

  lemma StdIsUnique()
    ensures Unique(Mysql, StdTable())
  {
    forall i, j | i in StdTable() && j in StdTable() && Same(StdTable()[i], StdTable()[j])
      ensures i == j
    {
      StdName(i);
      StdName(j);
      InitialsDiffer(i, j);
    }
  }

  function StdState(): State { State(Mysql, StdTable(), map[], map[], map[]) }

  lemma FoldOfHistory()
    ensures Same("history", "History")
  {}

  lemma GoesOn(run: seq<State>, labels: seq<Label>, l: Label, next: State)
    requires IsRun(run, labels) && Enabled(run[|labels|], l) && next == Step(run[|labels|], l)
    ensures IsRun(run + [next], labels + [l])
  {
    var more, steps := run + [next], labels + [l];
    forall i | 0 <= i < |steps| ensures Enabled(more[i], steps[i]) && more[i + 1] == Step(more[i], steps[i]) {
      assert i < |labels| ==> more[i] == run[i] && steps[i] == labels[i] && more[i + 1] == run[i + 1];
    }
  }

  /**
   * A request to collection "History" on MySQL: the query finds "history", and from then on the
   * cache tells the name as the request spelled it.
   */
  lemma HistoryIsRenamed(s: State) returns (run: seq<State>, labels: seq<Label>)
    requires Init(s) && s.b.Mysql?
    ensures IsRun(run, labels) && run[0] == s
    ensures labels == [Start(0, false), FindName(0, "History", 4), FinishPut(0)]
    ensures Lookup(run[3].table, 4) == Some("history") && Lookup(run[3].byId, 4) == Some("History")
  {
    assert STD_COLLS[3] == (4, "history");
    FoldOfHistory();
    run, labels := [s], [];
    var start, find, finish := Start(0, false), FindName(0, "History", 4), FinishPut(0);
    var s1 := Step(s, start);
    GoesOn(run, labels, start, s1);
    run, labels := run + [s1], labels + [start];
    assert ViewOf(s1, 0) == s.table;
    var s2 := Step(s1, find);
    GoesOn(run, labels, find, s2);
    run, labels := run + [s2], labels + [find];
    assert s2.sessions[0].half == Some((4 as I32, "History"));
    GoesOn(run, labels, finish, Step(s2, finish));
    run, labels := run + [Step(s2, finish)], labels + [finish];
  }

  lemma StdRow(i: nat)
    requires i < |STD_COLLS|
    ensures STD_COLLS[i].0 in StdTable() && StdTable()[STD_COLLS[i].0] == STD_COLLS[i].1
  {
    assert |STD_COLLS| == 13 && STD_COLLS[i].0 == i + 1;
  }

  /** The machine can start. */
  lemma StdStateIsInit()
    ensures Init(StdState())
  {
    StdIsUnique();
    forall i | 0 <= i < |STD_COLLS|
      ensures STD_COLLS[i].0 in StdTable() && StdTable()[STD_COLLS[i].0] == STD_COLLS[i].1
    {
      StdRow(i);
    }
  }
}
