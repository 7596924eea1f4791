/** The `db` object of lib/database.js: generic CRUD and search over the
    Postgres tables, in front of the in-memory cache of `CacheStore`.

    The database itself is a parameter: `engine` says what `sql.query`
    answers to a statement, rows or an error, and `sent` records every
    statement the layer sends, in order. Time is the parameter `now`. No
    operation catches anything: when a statement fails, the operation
    rejects with the same error, and whatever it did to the cache before
    the statement stays done.

    `findAll` and `findById` read the clock twice: `now` is the reading
    of the lookup, before the query is awaited, and `stored` the reading
    `setCache` stamps the fetched entry with, after the query settles. */
module Database {
  import opened Js
  import opened CacheStore
  import opened RowCodec
  import opened QueryBuilder

  /** What `sql.query(text, params)` settles with: the result rows, each
      with the database's snake_case column names, or an error. */
  datatype Reply = Rows(rows: seq<Props>) | Failed(reason: string)

  /** `{ posts, users }` as `search` returns it. */
  datatype SearchResults = SearchResults(posts: seq<JsValue>, users: seq<JsValue>)

  /** What `parseRow(undefined)` throws: `create` parses `result.rows[0]`
      without checking that there is one. */
  const NoRow: string := "TypeError: Cannot convert undefined or null to object"

  /** `rows.map(parseRow)` */
  function ParsedRows(rows: seq<Props>): seq<JsValue> {
    seq(|rows|, i requires 0 <= i < |rows| => Obj(Parsed(rows[i])))
  }

  /** `result.rows.map(parseRow)`: one `parseRow` per row, in order; every
      row becomes an object with distinct camelCase keys. */
  method ParseAll(rows: seq<Props>) returns (objects: seq<JsValue>)
    ensures objects == ParsedRows(rows)
    ensures forall i :: 0 <= i < |objects| ==> objects[i].Obj? && DistinctKeys(objects[i].props)
  {
    objects := [];
    for i := 0 to |rows|
      invariant |objects| == i
      invariant forall j :: 0 <= j < i ==> objects[j] == Obj(Parsed(rows[j]))
      invariant forall j :: 0 <= j < i ==> DistinctKeys(objects[j].props)
    {
      var parsed := ParseRow(rows[i]);
      objects := objects + [Obj(parsed)];
    }
  }

  class Db {
    /** The process-wide cache. */
    const cache: Cache
    /** The statements sent to the database so far, oldest first. */
    var sent: seq<Statement>

    ghost predicate Valid()
      reads this, cache
    {
      cache.Valid()
    }

    constructor ()
      ensures Valid() && fresh(cache)
      ensures cache.State() == Empty && sent == []
    {
      cache := new Cache();
      sent := [];
    }

    /** `await sql.query(stmt.text, stmt.params)` */
    method Send(stmt: Statement, engine: Statement -> Reply) returns (reply: Reply)
      modifies this
      ensures sent == old(sent) + [stmt]
      ensures reply == engine(stmt)
    {
      sent := sent + [stmt];
      reply := engine(stmt);
    }

    /** `findAll(table, filters, sort)`: a truthy cached list is returned
        without a query; otherwise the filtered, sorted SELECT is sent and
        its parsed rows are cached under the list key, stamped with the
        clock after the query, and returned. */
    method FindAll(table: string, filters: Props, sort: Props, now: int, stored: int, engine: Statement -> Reply)
      returns (r: Outcome<JsValue>)
      requires Valid()
      modifies this, cache
      ensures Valid()
      ensures
        var key := ListKey(table, filters, sort);
        var before := old(cache.State());
        var stmt := FindAllStatement(table, filters, sort);
        if Truthy(Lookup(before, key, now)) then
          r == Ok(Lookup(before, key, now)) && sent == old(sent) && cache.State() == before
        else
          && sent == old(sent) + [stmt]
          && match engine(stmt)
             case Failed(e) =>
               r == Threw(e) && cache.State() == AfterLookup(before, key, now)
             case Rows(rows) =>
               && r == Ok(Arr(ParsedRows(rows)))
               && cache.State() == Store(AfterLookup(before, key, now), key, Arr(ParsedRows(rows)), stored)
    {
      var key := ListKey(table, filters, sort);
      var cached := cache.Get(key, now);
      if Truthy(cached) {
        return Ok(cached);
      }
      ghost var looked := cache.State();
      var stmt := FindAllQuery(table, filters, sort);
      var reply := Send(stmt, engine);
      match reply
      case Failed(e) =>
        r := Threw(e);
      case Rows(rows) =>
        var objects := ParseAll(rows);
        cache.Set(key, Arr(objects), stored);
        r := Ok(Arr(objects));
        assert cache.State() == Store(looked, key, Arr(ParsedRows(rows)), stored);
    }

    /** `findById(table, id)`: a truthy cached record is returned without a
        query; otherwise the first row of the SELECT by id, parsed, is
        cached, stamped with the clock after the query, and returned, or
        `null` when there is none. */
    method FindById(table: string, id: JsValue, now: int, stored: int, engine: Statement -> Reply)
      returns (r: Outcome<JsValue>)
      requires Valid()
      modifies this, cache
      ensures Valid()
      ensures
        var key := RecordKey(table, id);
        var before := old(cache.State());
        var stmt := SelectById(table, id);
        if Truthy(Lookup(before, key, now)) then
          r == Ok(Lookup(before, key, now)) && sent == old(sent) && cache.State() == before
        else
          && sent == old(sent) + [stmt]
          && match engine(stmt)
             case Failed(e) =>
               r == Threw(e) && cache.State() == AfterLookup(before, key, now)
             case Rows(rows) =>
               if rows == [] then
                 r == Ok(Null) && cache.State() == AfterLookup(before, key, now)
               else
                 && r == Ok(Obj(Parsed(rows[0])))
                 && cache.State() == Store(AfterLookup(before, key, now), key, Obj(Parsed(rows[0])), stored)
    {
      var key := RecordKey(table, id);
      var cached := cache.Get(key, now);
      if Truthy(cached) {
        return Ok(cached);
      }
      var reply := Send(SelectById(table, id), engine);
      match reply
      case Failed(e) =>
        r := Threw(e);
      case Rows(rows) =>
        if rows == [] {
          r := Ok(Null);
        } else {
          var row := ParseRow(rows[0]);
          cache.Set(key, Obj(row), stored);
          r := Ok(Obj(row));
        }
    }

    /** `create(table, data)`: the INSERT is sent; the returned row, parsed,
        is cached under the key of its own `id` and the key `table:all` is
        deleted. With no row returned, `parseRow` throws. */
    method Create(table: string, data: Props, now: int, engine: Statement -> Reply)
      returns (r: Outcome<JsValue>)
      requires Valid()
      modifies this, cache
      ensures Valid()
      ensures sent == old(sent) + [InsertStatement(table, data)]
      ensures
        var before := old(cache.State());
        match engine(InsertStatement(table, data))
        case Failed(e) =>
          r == Threw(e) && cache.State() == before
        case Rows(rows) =>
          if rows == [] then
            r == Threw(NoRow) && cache.State() == before
          else
            var row := Parsed(rows[0]);
            && r == Ok(Obj(row))
            && cache.State() == Remove(Store(before, RecordKey(table, Get(row, "id")), Obj(row), now), AllKey(table))
    {
      var reply := Send(InsertStatement(table, data), engine);
      match reply
      case Failed(e) =>
        r := Threw(e);
      case Rows(rows) =>
        if rows == [] {
          r := Threw(NoRow);
        } else {
          var row := ParseRow(rows[0]);
          cache.Set(RecordKey(table, Get(row, "id")), Obj(row), now);
          cache.Delete(AllKey(table));
          r := Ok(Obj(row));
        }
    }

    /** `update(table, id, data)`: the UPDATE is sent; when a row comes back
        it is parsed, cached under the record key of `id` and returned, and
        `table:all` is deleted; when none does, the result is `null` and the
        cache is untouched. */
    method Update(table: string, id: JsValue, data: Props, now: int, engine: Statement -> Reply)
      returns (r: Outcome<JsValue>)
      requires Valid()
      modifies this, cache
      ensures Valid()
      ensures sent == old(sent) + [UpdateStatement(table, id, data)]
      ensures
        var before := old(cache.State());
        match engine(UpdateStatement(table, id, data))
        case Failed(e) =>
          r == Threw(e) && cache.State() == before
        case Rows(rows) =>
          if rows == [] then
            r == Ok(Null) && cache.State() == before
          else
            var row := Parsed(rows[0]);
            && r == Ok(Obj(row))
            && cache.State() == Remove(Store(before, RecordKey(table, id), Obj(row), now), AllKey(table))
    {
      var reply := Send(UpdateStatement(table, id, data), engine);
      match reply
      case Failed(e) =>
        r := Threw(e);
      case Rows(rows) =>
        if rows == [] {
          r := Ok(Null);
        } else {
          var row := ParseRow(rows[0]);
          cache.Set(RecordKey(table, id), Obj(row), now);
          cache.Delete(AllKey(table));
          r := Ok(Obj(row));
        }
    }

    /** `delete(table, id)`: the DELETE is sent; then the record key and
        `table:all` are deleted from the cache and the result is `true`,
        whether or not a row was deleted. */
    method Delete(table: string, id: JsValue, engine: Statement -> Reply)
      returns (r: Outcome<JsValue>)
      requires Valid()
      modifies this, cache
      ensures Valid()
      ensures sent == old(sent) + [DeleteById(table, id)]
      ensures
        var before := old(cache.State());
        match engine(DeleteById(table, id))
        case Failed(e) =>
          r == Threw(e) && cache.State() == before
        case Rows(_) =>
          r == Ok(Bool(true)) && cache.State() == Remove(Remove(before, RecordKey(table, id)), AllKey(table))
    {
      var reply := Send(DeleteById(table, id), engine);
      match reply
      case Failed(e) =>
        r := Threw(e);
      case Rows(_) =>
        cache.Delete(RecordKey(table, id));
        cache.Delete(AllKey(table));
        r := Ok(Bool(true));
    }

    /** `search(query, kind)`: the posts query when `kind` is "all" or
        "posts", then the users query when it is "all" or "users"; any other
        kind sends nothing and finds nothing. The cache is not consulted. */
    method Search(query: string, kind: string, engine: Statement -> Reply)
      returns (r: Outcome<SearchResults>)
      modifies this
      ensures cache.State() == old(cache.State())
      ensures
        var postsStmts := if SearchesPosts(kind) then [PostsSearch(query)] else [];
        var usersStmts := if SearchesUsers(kind) then [UsersSearch(query)] else [];
        var postsReply := engine(PostsSearch(query));
        var usersReply := engine(UsersSearch(query));
        if SearchesPosts(kind) && postsReply.Failed? then
          r == Threw(postsReply.reason) && sent == old(sent) + postsStmts
        else if SearchesUsers(kind) && usersReply.Failed? then
          r == Threw(usersReply.reason) && sent == old(sent) + postsStmts + usersStmts
        else
          && sent == old(sent) + postsStmts + usersStmts
          && r == Ok(SearchResults(
               if SearchesPosts(kind) then ParsedRows(postsReply.rows) else [],
               if SearchesUsers(kind) then ParsedRows(usersReply.rows) else []))
      ensures !SearchesPosts(kind) && !SearchesUsers(kind) ==> r == Ok(SearchResults([], [])) && sent == old(sent)
    {
      var results := SearchResults([], []);
      if kind == "all" || kind == "posts" {
        var reply := Send(PostsSearch(query), engine);
        if reply.Failed? {
          return Threw(reply.reason);
        }
        var posts := ParseAll(reply.rows);
        results := results.(posts := posts);
      }
      if kind == "all" || kind == "users" {
        var reply := Send(UsersSearch(query), engine);
        if reply.Failed? {
          return Threw(reply.reason);
        }
        var users := ParseAll(reply.rows);
        results := results.(users := users);
      }
      return Ok(results);
    }
  }

  // ------------------------------------------------- what the cache serves

  /** A record written by `create` or `update` is served by `findById` from
      the cache, with no query, until the time-to-live runs out, unless its
      id renders as "all" (then the invalidation that follows the write
      deletes the record itself). */
  lemma WriteThenFindByIdHits(st: CacheState, table: string, id: JsValue, row: Props, now: int, later: int)
    requires Bounded(st)
    requires TemplateString(id) != "all"
    requires later - now < Ttl
    ensures
      var key := RecordKey(table, id);
      var after := Remove(Store(st, key, Obj(row), now), AllKey(table));
      && Lookup(after, key, later) == Obj(row)
      && AfterLookup(after, key, later) == after
  {
    RecordKeyIsAllKeyIff(table, id);
    StoreHoldsWritten(st, RecordKey(table, id), Obj(row), now);
  }

  /** When the id renders as "all", the record `create` or `update` just
      cached is deleted at once by the list invalidation. */
  lemma WriteOfIdAllIsNotCached(st: CacheState, table: string, id: JsValue, row: Props, now: int, later: int)
    requires WellFormed(st)
    requires TemplateString(id) == "all"
    ensures Lookup(Remove(Store(st, RecordKey(table, id), Obj(row), now), AllKey(table)), RecordKey(table, id), later) == Null
  {
    RecordKeyIsAllKeyIff(table, id);
  }

  /** After `delete`, `findById` of the same id misses the cache and asks
      the database. */
  lemma DeleteThenFindByIdMisses(st: CacheState, table: string, id: JsValue, later: int)
    requires WellFormed(st)
    ensures !Truthy(Lookup(Remove(Remove(st, RecordKey(table, id)), AllKey(table)), RecordKey(table, id), later))
  {
  }

  /** `delete` does not reach cached lists: a list `findAll` cached for the
      table is served as before, deleted row included, until it expires. */
  lemma DeleteLeavesListsCached(st: CacheState, table: string, id: JsValue, filters: Props, sort: Props, later: int)
    requires WellFormed(st)
    requires RecordKey(table, id) != ListKey(table, filters, sort)
    ensures
      var key := ListKey(table, filters, sort);
      Lookup(Remove(Remove(st, RecordKey(table, id)), AllKey(table)), key, later) == Lookup(st, key, later)
  {
    ListKeyIsNeverAllKey(table, filters, sort);
  }

  /** Nor do `create` and `update`: a cached list survives them with the
      same contents and time stamp, unless the write of a new record to a
      full cache evicts it as the oldest entry. */
  lemma WriteLeavesListsCached(st: CacheState, table: string, id: JsValue, row: Props, now: int,
                               filters: Props, sort: Props, later: int)
    requires Bounded(st)
    requires RecordKey(table, id) != ListKey(table, filters, sort)
    requires
      || RecordKey(table, id) in st.entries
      || |st.order| < MaxEntries
      || st.order[0] != ListKey(table, filters, sort)
    ensures
      var key := ListKey(table, filters, sort);
      Lookup(Remove(Store(st, RecordKey(table, id), Obj(row), now), AllKey(table)), key, later) == Lookup(st, key, later)
  {
    var key := ListKey(table, filters, sort);
    ListKeyIsNeverAllKey(table, filters, sort);
    if key in st.entries {
      StoreKeepsOthers(st, RecordKey(table, id), Obj(row), now, key);
    }
  }

  /** `create` followed by `findById` of the new row's id within the
      time-to-live: one INSERT is sent, and `findById` returns the created
      row from the cache. */
  method CreateThenFindById(db: Db, table: string, data: Props, now: int, later: int, engine: Statement -> Reply)
    returns (created: Outcome<JsValue>, found: Outcome<JsValue>)
    requires db.Valid()
    requires engine(InsertStatement(table, data)).Rows? && engine(InsertStatement(table, data)).rows != []
    requires TemplateString(Get(Parsed(engine(InsertStatement(table, data)).rows[0]), "id")) != "all"
    requires later - now < Ttl
    modifies db, db.cache
    ensures db.Valid()
    ensures created == Ok(Obj(Parsed(engine(InsertStatement(table, data)).rows[0])))
    ensures found == created
    ensures db.sent == old(db.sent) + [InsertStatement(table, data)]
  {
    ghost var before := db.cache.State();
    created := db.Create(table, data, now, engine);
    ghost var rows := engine(InsertStatement(table, data)).rows;
    ghost var row := Parsed(rows[0]);
    assert created == Ok(Obj(row));
    var id := Get(created.value.props, "id");
    assert db.cache.State() == Remove(Store(before, RecordKey(table, id), Obj(row), now), AllKey(table));
    WriteThenFindByIdHits(before, table, id, row, now, later);
    ghost var written := db.cache.State();
    ghost var sentBefore := db.sent;
    assert Truthy(Lookup(written, RecordKey(table, id), later));
    found := db.FindById(table, id, later, later, engine);
    assert found == Ok(Lookup(written, RecordKey(table, id), later)) && db.sent == sentBefore;
  }
}
