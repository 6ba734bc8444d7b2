/**
 * Collection names and ids: the table, the cache that a pool keeps of it (`CollectionCache` in
 * src/db/mysql/pool.rs and src/db/spanner/pool.rs), and the lookups of a session that use both.
 */
module Collections {
  import opened Wrappers
  import opened Store

  const STD_COLLS: seq<(I32, string)> := [
    (1, "clients"), (2, "crypto"), (3, "forms"), (4, "history"), (5, "keys"), (6, "meta"), (7, "bookmarks"),
    (8, "prefs"), (9, "tabs"), (10, "passwords"), (11, "addons"), (12, "addresses"), (13, "creditcards")]

  const FIRST_CUSTOM_COLLECTION_ID: I32 := 101

  /** The table of collections, by id: the primary key. */
  type Names = map<I32, string>

  /** The index on the names is unique. */
  predicate Unique(b: Backend, t: Names) { forall i, j | i in t && j in t && SameText(b, t[i], t[j]) :: i == j }

  /** The migrations insert the standard collections. */
  predicate HasStd(t: Names) {
    forall i | 0 <= i < |STD_COLLS| :: STD_COLLS[i].0 in t && t[STD_COLLS[i].0] == STD_COLLS[i].1
  }

  /** Another migration reserves the ids up to 100 on MySQL, so that AUTO_INCREMENT goes on from 101. */
  predicate Reserved(b: Backend, t: Names) { b.Mysql? ==> 100 in t && t[100] == "" }

  /** SELECT id .. WHERE name = .. */
  function IdOf(b: Backend, t: Names, name: string): (r: Option<I32>)
    requires Unique(b, t)
    ensures r.Some? ==> r.value in t && SameText(b, t[r.value], name)
    ensures r.None? ==> forall id | id in t :: !SameText(b, t[id], name)
  {
    if id: I32 :| id in t && SameText(b, t[id], name) then Some(id) else None
  }

  /** What the cache says, each of its maps on its own, is in the table, up to the spelling of names. */
  predicate Backed(b: Backend, byName: map<string, I32>, byId: map<I32, string>, t: Names) {
    && (forall name | name in byName :: byName[name] in t && SameText(b, t[byName[name]], name))
    && (forall id | id in byId :: id in t && SameText(b, t[id], byId[id]))
  }

  /** .. and spelled as there. */
  predicate Exact(byId: map<I32, string>, t: Names) { forall id | id in byId :: id in t && byId[id] == t[id] }

  /** Two maps behind a lock each, filled one after the other. */
  class CollectionCache {
    var byName: map<string, I32>
    var byId: map<I32, string>

    /** The standard collections are known from the start. */
    constructor (ghost b: Backend, ghost t: Names)
      requires HasStd(t)
      ensures Backed(b, byName, byId, t) && Exact(byId, t)
      ensures forall i | 0 <= i < |STD_COLLS| :: STD_COLLS[i].1 in byName && STD_COLLS[i].0 in byId
    {
      byName, byId := map[], map[];
      new;
      var i := 0;
      while i < |STD_COLLS|
        invariant i <= |STD_COLLS| && Backed(b, byName, byId, t) && Exact(byId, t)
        invariant forall j | 0 <= j < i :: STD_COLLS[j].1 in byName && STD_COLLS[j].0 in byId
      {
        byName := byName[STD_COLLS[i].1 := STD_COLLS[i].0];
        byId := byId[STD_COLLS[i].0 := STD_COLLS[i].1];
        i := i + 1;
      }
    }

    method Put(id: I32, name: string)
      modifies this
      ensures byName == old(byName)[name := id] && byId == old(byId)[id := name]
    {
      byName := byName[name := id];
      byId := byId[id := name];
    }

    function GetId(name: string): Option<I32>
      reads this
    {
      Lookup(byName, name)
    }

    function GetName(id: I32): Option<string>
      reads this
    {
      Lookup(byId, id)
    }
  }

  lemma NewNameKeepsUnique(b: Backend, t: Names, name: string, id: I32)
    requires Unique(b, t) && id !in t && forall i | i in t :: !SameText(b, t[i], name)
    ensures Unique(b, t[id := name]) && IdOf(b, t[id := name], name) == Some(id)
  {
    SameItself(b, name);
    var t' := t[id := name];
    assert id in t' && SameText(b, t'[id], name);
  }

  lemma AddEither(t: Names, created: Names, id: I32, name: string)
    requires id !in t + created
    ensures t + created[id := name] == (t + created)[id := name] == t[id := name] + created
  {}

  lemma SameItself(b: Backend, name: string)
    ensures SameText(b, name, name)
  {}

  // ----- new ids -----

  function MaxId(t: Names): I32 {
    var ids := set id: I32 | id in t :: id as int;
    if ids == {} then 1 else Max(ids)
  }

  /** COALESCE(MAX(collection_id), 1) plus one in 32 bits, but at least the first custom id. */
  function NextId(t: Names): I32 {
    var next := if MaxId(t) == 0x7fff_ffff then -0x8000_0000 else MaxId(t) + 1;
    if next < FIRST_CUSTOM_COLLECTION_ID then FIRST_CUSTOM_COLLECTION_ID else next
  }

  /** A new id is a custom one, and new exactly if the ids have not run out or the first is free. */
  lemma NextIdIsNew(t: Names)
    ensures NextId(t) >= FIRST_CUSTOM_COLLECTION_ID
    ensures NextId(t) !in t <==> MaxId(t) < 0x7fff_ffff || FIRST_CUSTOM_COLLECTION_ID !in t
  {
    var ids := set id: I32 | id in t :: id as int;
    forall id | id in t
      ensures id <= MaxId(t)
    {
      assert id as int in ids;
    }
    if ids != {} { assert Max(ids) in ids; }
  }

  // ----- the lookups of a session -----

  /** The durable table. */
  class Table {
    var rows: Names

    constructor (t: Names)
      ensures rows == t
    {
      rows := t;
    }
  }

  /** The collection side of a session: it may write in its transaction rows that are not committed. */
  class CollectionDb {
    const b: Backend
    const cache: CollectionCache
    const table: Table
    var created: Names
    var inWriteTransaction: bool

    constructor (backend: Backend, c: CollectionCache, t: Table)
      ensures b == backend && cache == c && table == t && created == map[] && !inWriteTransaction
    {
      b, cache, table, created, inWriteTransaction := backend, c, t, map[], false;
    }

    /** The table as the session sees it. */
    function View(): Names
      reads this, table
    {
      table.rows + created
    }

    /** The cache tells of committed rows only, and the session has changed none of those. */
    ghost predicate Valid()
      reads this, table, cache
    {
      && Unique(b, View()) && created.Keys !! table.rows.Keys
      && (!inWriteTransaction ==> created == map[])
      && Backed(b, cache.byName, cache.byId, table.rows)
    }

    method Remember(id: I32, name: string)
      requires Valid() && (!inWriteTransaction ==> id in table.rows && SameText(b, table.rows[id], name))
      modifies cache
      ensures Valid()
      ensures inWriteTransaction ==> cache.byId == old(cache.byId) && cache.byName == old(cache.byName)
      ensures !inWriteTransaction ==> cache.byId == old(cache.byId)[id := name]
    {
      if !inWriteTransaction {
        cache.Put(id, name);
      }
    }

    /**
     * The cache and the query agree, whichever answers. What is remembered is the name as it was
     * asked for, which is as it is stored exactly if they are spelled alike.
     */
    method GetCollectionId(name: string) returns (r: Result<I32>)
      requires Valid()
      modifies cache
      ensures Valid()
      ensures r == match IdOf(b, View(), name) case Some(id) => Ok(id) case None => Err(CollectionNotFound)
      ensures (r.Ok? ==> View()[r.value] == name) && old(Exact(cache.byId, table.rows)) ==>
        Exact(cache.byId, table.rows)
    {
      var cached := cache.GetId(name);
      if cached.Some? {
        assert SameText(b, View()[cached.value], name);
        return Ok(cached.value);
      }
      var found := IdOf(b, View(), name);
      if found.None? { return Err(CollectionNotFound); }
      Remember(found.value, name);
      return Ok(found.value);
    }

    /** Spanner: the row is inserted in the session's transaction. */
    method CreateCollection(name: string) returns (r: Result<I32>)
      requires Valid() && b.Spanner? && IdOf(b, View(), name).None?
      modifies this`created
      ensures Valid()
      ensures !inWriteTransaction ==> r == Err(Internal)
      ensures inWriteTransaction ==> (r.Ok? <==> NextId(old(View())) !in old(View()))
      ensures r.Ok? ==> r.value == NextId(old(View())) && View() == old(View())[r.value := name]
      ensures r.Err? ==> created == old(created)
    {
      if !inWriteTransaction { return Err(Internal); }
      var id := NextId(View());
      if id in View() { return Err(Sql); }
      created := created[id := name];
      assert View() == old(View())[id := name];
      return Ok(id);
    }

    /**
     * MySQL: INSERT IGNORE, which commits on its own outside a write transaction; `serial` is the
     * AUTO_INCREMENT value it would use.
     */
    method InsertOrIgnore(name: string, serial: I32) returns (id: I32)
      requires Valid() && b.Mysql? && serial !in View()
      modifies this`created, table
      ensures Valid() && IdOf(b, View(), name) == Some(id)
      ensures View() == match IdOf(b, old(View()), name)
        case Some(_) => old(View())
        case None => old(View())[serial := name]
      ensures if inWriteTransaction then table.rows == old(table.rows) else created == old(created)
    {
      var found := IdOf(b, View(), name);
      if found.Some? { return found.value; }
      NewNameKeepsUnique(b, View(), name, serial);
      AddEither(table.rows, created, serial, name);
      if inWriteTransaction {
        created := created[serial := name];
      } else {
        table.rows := table.rows[serial := name];
      }
      return serial;
    }

    /** MySQL: from the cache, or from a row, which is only remembered outside a write transaction. */
    method GetOrInsertId(name: string, serial: I32) returns (id: I32)
      requires Valid() && b.Mysql? && serial !in View()
      modifies this`created, cache, table
      ensures Valid() && IdOf(b, View(), name) == Some(id)
      ensures View() == match IdOf(b, old(View()), name)
        case Some(_) => old(View())
        case None => old(View())[serial := name]
      ensures inWriteTransaction ==>
        cache.byId == old(cache.byId) && cache.byName == old(cache.byName) && table.rows == old(table.rows)
    {
      var cached := cache.GetId(name);
      if cached.Some? {
        assert SameText(b, View()[cached.value], name);
        return cached.value;
      }
      id := InsertOrIgnore(name, serial);
      Remember(id, name);
    }

    /** The id of a collection that may be new; once known, it is what any other lookup finds. */
    method GetOrCreateCollectionId(name: string, serial: I32) returns (r: Result<I32>)
      requires Valid() && (b.Mysql? ==> serial !in View())
      modifies this`created, cache, table
      ensures Valid()
      ensures r.Ok? ==> IdOf(b, View(), name) == r.ToOption()
      ensures old(IdOf(b, View(), name)).Some? ==> View() == old(View()) && r.ToOption() == old(IdOf(b, View(), name))
      ensures View() == old(View()) || (r.Ok? && View() == old(View())[r.value := name])
    {
      if b.Mysql? {
        var id := GetOrInsertId(name, serial);
        return Ok(id);
      }
      r := GetCollectionId(name);
      if r == Err(CollectionNotFound) {
        r := CreateCollection(name);
      }
    }

    /** The ids the cache can name, and the others. */
    method FromCache(ids: set<I32>) returns (names: Names, uncached: set<I32>)
      requires Valid()
      ensures uncached <= ids && uncached !! cache.byId.Keys && names == Said(cache.byId, View(), ids - uncached)
    {
      names, uncached := map[], {};
      var left := ids;
      while left != {}
        invariant left <= ids && uncached <= ids - left && uncached !! cache.byId.Keys
        invariant names == Said(cache.byId, View(), ids - left - uncached)
        decreases left
      {
        var id := Pick(left);
        var name := cache.GetName(id);
        ghost var seen := ids - left - uncached;
        SaidMore(cache.byId, View(), seen, id);
        if name.Some? {
          names := names[id := name.value];
          assert ids - (left - {id}) - uncached == seen + {id};
        } else {
          uncached := uncached + {id};
          assert ids - (left - {id}) - uncached == seen;
        }
        left := left - {id};
      }
      assert ids - left - uncached == ids - uncached;
    }

    /** The rows the query finds are remembered one by one. */
    method FromTable(ids: set<I32>, known: Names, ghost done: set<I32>, ghost byId: Names) returns (names: Names)
      requires Valid() && known == Said(byId, View(), done) && ids !! byId.Keys
      modifies cache
      ensures Valid() && names == Said(byId, View(), done + ids)
    {
      names := known;
      var left := ids;
      ghost var seen := done;
      while left != {}
        invariant Valid() && left <= ids && seen + left == done + ids
        invariant names == Said(byId, View(), seen)
        decreases left
      {
        var id := Pick(left);
        SaidMore(byId, View(), seen, id);
        if id in View() {
          names := names[id := View()[id]];
          Remember(id, View()[id]);
        }
        left := left - {id};
        seen := seen + {id};
      }
      assert seen == done + ids;
    }

    /**
     * The names of some ids: as the cache has them where it knows them, the rest from the table in
     * one query. They are those of the table, up to the spelling that the cache remembers.
     */
    method LoadCollectionNames(ids: set<I32>) returns (names: Names)
      requires Valid()
      modifies cache
      ensures Valid() && names == Said(old(cache.byId), View(), ids)
      ensures names.Keys == ids * View().Keys && forall id | id in names :: SameText(b, View()[id], names[id])
      ensures old(Exact(cache.byId, table.rows)) ==> forall id | id in names :: names[id] == View()[id]
    {
      var uncached;
      names, uncached := FromCache(ids);
      names := FromTable(uncached, names, ids - uncached, cache.byId);
      assert ids - uncached + uncached == ids;
      forall id | id in names
        ensures SameText(b, View()[id], names[id])
      {
        if id !in old(cache.byId) { SameItself(b, View()[id]); }
      }
    }
  }

  /** The names of some ids that the table has: as the cache says, if it says anything. */
  function Said(byId: Names, t: Names, ids: set<I32>): Names {
    map id | id in ids && id in t :: if id in byId then byId[id] else t[id]
  }

  lemma SaidMore(byId: Names, t: Names, ids: set<I32>, id: I32)
    ensures Said(byId, t, ids + {id})
      == if id in t then Said(byId, t, ids)[id := if id in byId then byId[id] else t[id]] else Said(byId, t, ids)
  {}

  method Pick(ids: set<I32>) returns (id: I32)
    requires ids != {}
    ensures id in ids
  {
    assert (forall i: I32 :: i !in ids) ==> ids == {};
    id :| id in ids;
  }
}
