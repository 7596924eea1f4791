# Cached data-access layer of vinreach-api, in Dafny

This project models the generic data-access layer of `lib/database.js` and
the record builders of `lib/helpers.js`, and proves properties of that model.

- **The cache.** It is a process-wide JavaScript `Map` from cache key to
  `{ data, time }`. Entries have a 60 000 ms time-to-live and there is a cap
  of 1000 entries. Reading a key serves the entry only while it is younger
  than the time-to-live, and deletes it otherwise. Writing a key stamps it
  with the clock. When the map then holds more than 1000 keys, the first key
  in insertion order is deleted.
- **The query builder.** It produces cache keys and the parameterised
  statements the layer sends to Postgres:
  - `findAll`'s `field ILIKE $k` clauses, with values wrapped as `%value%`,
    and the optional `ORDER BY`;
  - the `INSERT … RETURNING *` and `UPDATE … RETURNING *` statements, with
    numbered placeholders;
  - the select and delete by id;
  - the two search queries.
- **The row codec.** `parseRow` renames each column from snake_case to
  camelCase with the global replacement `/_([a-z])/g`.
- **The operations** of `db`: `findAll`, `findById`, `create`, `update`,
  `delete` and `search`. They combine the three parts above.
- **The builders** `createPost`, `createUser` and `createComment`, with
  their `||` defaults.

Modules:

| file | module | form |
|---|---|---|
| `Js.dfy` | `Js` | JavaScript values: truthiness, `||`, property reads and assignments on plain objects, `String(v)`, `JSON.stringify`, ASCII `toLowerCase` |
| `CacheStore.dfy` | `CacheStore` | the cache as a value `CacheState` (insertion order plus map) with its transitions, and the class `Cache` whose methods update it in place |
| `RowCodec.dfy` | `RowCodec` | the camelCase rename as a function, and `parseRow` as a loop proved against it |
| `SqlPattern.dfy` | `SqlPattern` | what `LIKE` and `ILIKE` patterns match |
| `QueryBuilder.dfy` | `QueryBuilder` | keys and statements as functions; `findAll`'s filter loop as a method |
| `Database.dfy` | `Database` | the class `Db` (the cache plus the record of statements sent) with one method per operation |
| `Helpers.dfy` | `Helpers` | the three builders as functions |

How the database, the clock and errors are represented:

- `sql.query` is the parameter `engine: Statement -> Reply`. A `Reply` is
  either the returned rows or an error.
- `Db.sent` records every statement the layer sends, in order. This is how
  the contracts say whether a call reached the database.
- `Date.now()` is a parameter. `findAll` and `findById` read the clock
  twice: `now` is the reading of the cache lookup, before the query is
  awaited, and `stored` is the reading `setCache` stamps the fetched entry
  with, after the query settles. The builders and `create` and `update`
  read it once, as `now`.
- No operation catches anything. A failed statement makes the operation
  reject with that error (`Threw`), and what it did to the cache before the
  statement stays done.

What the model shows about invalidation. The writes delete the single key
`table:all`, which is never the key of a cached list
(`QueryBuilder.ListKeyIsNeverAllKey`). A list that `findAll` cached is
therefore still served after `create`, `update` and `delete` on its table,
until it expires, unless a write to a full cache evicts it as the oldest entry (`Database.DeleteLeavesListsCached`,
`Database.WriteLeavesListsCached`). Record keys and list keys can also
coincide (`QueryBuilder.RecordKeyCanBeListKey`).

The model follows what lib/database.js does, which differs from what one
might expect of a data layer with list caching:

- Writes do not invalidate every list of the table.
- There is no `deleteWhere`.
- There is no identifier allow-list.
- Store errors are not caught and degraded to empty results; reads and
  `delete` reject like the writes.
- `update` with empty `data` is not turned into a read. It sends an
  `UPDATE` with an empty `SET`, and the engine decides what happens.
- `parseRow` renames columns but decodes no values.
- `create` on a statement that returns no row throws, because
  `parseRow(undefined)` raises a `TypeError`.

## Model

| member | source | states |
|---|---|---|
| CacheStore.Cache.constructor | lib/database.js:4 | the cache starts as an empty `Map` |
| CacheStore.Cache.Get | lib/database.js:11-18 | `getCached` serves the stored data exactly when the key is present and `now - time < 60000`, and then changes nothing; otherwise it returns `null`, the key is absent afterwards and every other entry is unchanged |
| CacheStore.Cache.Set | lib/database.js:20-27 | `setCache` stamps the entry with `now` and leaves the cache within the cap; the new state is `Store` of the old one |
| CacheStore.Cache.Delete | lib/database.js:16 | `cache.delete(key)` removes that key and nothing else |
| CacheStore.Lookup | lib/database.js:11-15 | the value `getCached` returns: the stored data while the entry is younger than 60000 ms, `null` for a missing or expired key; `SetThenGet` and `Cache.Get` relate it to the writes |
| CacheStore.AfterLookup | lib/database.js:11-17 | the cache after `getCached`: unchanged for a live key, the key deleted otherwise; `Cache.Get` is proved against it |
| CacheStore.Remove | lib/database.js:16 | `cache.delete(key)` on the value: the key is absent afterwards, every other entry is kept, and a well-formed cache stays well-formed |
| CacheStore.Store | lib/database.js:20-27 | the cache after `setCache`: the entry `{ data, time }` written in place or appended, then the first key deleted when the size exceeds 1000; `StoreEvictsOldest`, `StorePreservesBound`, `StoreHoldsWritten` and `StoreKeepsOthers` state what it does |
| CacheStore.SizeIsOrderLength | lib/database.js:23 | `cache.size` is the number of keys in insertion order |
| CacheStore.SetThenGet | lib/database.js:11-21 | `setCache(key, d)` followed by `getCached(key)` at the same time returns `d` and leaves the cache as `setCache` left it |
| CacheStore.StorePreservesBound | lib/database.js:20-27 | a cache of at most 1000 entries still has at most 1000 after `setCache` |
| CacheStore.StoreEvictsOldest | lib/database.js:20-27 | overwriting keeps the key's place; a new key is appended; when the cap is exceeded exactly one key goes, the first in insertion order, never the key just written |
| CacheStore.StoreAtCapacity | lib/database.js:23-26 | writing a new key to a full cache drops the oldest key and appends the new one |
| CacheStore.StoreKeepsWrittenKey | lib/database.js:20-27 | at any size, `setCache` evicts the key it writes only if that key was already the oldest |
| CacheStore.StoreHoldsWritten | lib/database.js:21 | within the cap, the written key holds exactly `{ data, time: now }` |
| CacheStore.StoreKeepsOthers | lib/database.js:21-26 | `setCache` changes no other entry, except the oldest one when a new key overflows a full cache |
| RowCodec.CamelCase | lib/database.js:220 | `key.replace(/_([a-z])/g, …)`: scanning left to right, each `_` followed by a lower-case letter becomes that letter upper-cased; its properties are the `CamelCase…` and `SnakeCaseRecoversColumn` lemmas |
| RowCodec.Parsed | lib/database.js:217-224 | the object `parseRow` returns: the columns assigned one by one, in row order, under their converted names; `ParseRow` is proved against it |
| RowCodec.CamelCaseKeepsPlainKey | lib/database.js:220 | a key without `_` followed by a lower-case letter passes through unchanged |
| RowCodec.CamelCaseLeavesNoMatch | lib/database.js:220 | no `_x` with lower-case `x` survives the replacement |
| RowCodec.CamelCaseIdempotent | lib/database.js:220 | converting an already converted key changes nothing |
| RowCodec.SnakeCaseRecoversColumn | lib/database.js:220 | on column names made of lower-case letters, digits and `_`, the snake_case name can be recovered from the camelCase one |
| RowCodec.CamelCaseInjectiveOnColumns | lib/database.js:220 | two different column names never convert to the same property name |
| RowCodec.ParsedHasDistinctKeys | lib/database.js:217-224 | the object `parseRow` builds never has a property twice |
| RowCodec.ParsedKeepsValues | lib/database.js:219-221 | every column's value is kept under its converted name, unless a later column converts to the same name |
| RowCodec.ParsedRenamesColumns | lib/database.js:217-224 | a row with distinct snake_case columns becomes the same values in the same order, only renamed |
| RowCodec.ParseRow | lib/database.js:217-224 | the assignment loop builds exactly `Parsed(row)`, an object with distinct keys that keeps each column's value unless a later column converts to the same name |
| SqlPattern.WrapIsSubstringTest | lib/database.js:110 | `s LIKE '%v%'` holds exactly when `v` occurs in `s`, for a `v` without `%`, `_` or `\` |
| SqlPattern.ILikeWrapIsCaseInsensitiveSubstringTest | lib/database.js:109-110 | `s ILIKE '%v%'` holds exactly when lower-case `v` occurs in lower-case `s` |
| SqlPattern.UnderscoreInValueIsWildcard | lib/database.js:110 | the value is not escaped: a filter `a_b` matches "axb", which does not contain "a_b" |
| QueryBuilder.RecordKey | lib/database.js:7-9 | `cacheKey(table, id)`, the table, a colon and `String(id)`; `RecordKeyIsAllKeyIff` and `RecordKeyCanBeListKey` say which other keys it can equal |
| QueryBuilder.AllKey | lib/database.js:154 | the key `table:all` that `create`, `update` (line 174) and `delete` (line 182) delete; `ListKeyIsNeverAllKey` shows no list is cached under it |
| QueryBuilder.ListKey | lib/database.js:98 | `findAll`'s key, `table:all:` then the JSON of the filters and of the sort; `ListKeyIgnoresUndefinedFilters` and `ListKeyIsNeverAllKey` are about it |
| QueryBuilder.FilterConditions | lib/database.js:107-113 | one clause `field ILIKE $(j+1)` per defined filter, as many as filters; `BuildFilter` is proved against it |
| QueryBuilder.FilterValues | lib/database.js:107-113 | one `%value%` string per defined filter, in filter order; `BuildFilter` is proved against it and `FindAllBindsEachFilter` ties each to its placeholder |
| QueryBuilder.ListKeyIsNeverAllKey | lib/database.js:98 | the key `table:all` the writes delete is never the key of a cached list |
| QueryBuilder.RecordKeyIsAllKeyIff | lib/database.js:7-9 | a record key equals `table:all` exactly when the id renders as "all" |
| QueryBuilder.RecordKeyCanBeListKey | lib/database.js:98 | the record key of the id "all:{}:{}" is the key of the unfiltered, unsorted list |
| QueryBuilder.ListKeyIgnoresUndefinedFilters | lib/database.js:98 | filters whose value is `undefined` change neither the list key nor the query |
| QueryBuilder.BuildFilter | lib/database.js:102-113 | one `field ILIKE $k` clause per filter whose value is not `undefined`, in filter order, with `k` running from 1; the values are the `%value%` wrappings in the same order, and each `$k` binds its own clause's value |
| QueryBuilder.FindAllQuery | lib/database.js:102-121 | the text built by `+=` is `SELECT * FROM table`, then ` WHERE` and the clauses joined by ` AND ` when there are any, then the `ORDER BY` part, with the filter values as parameters |
| QueryBuilder.FindAllBindsEachFilter | lib/database.js:107-113 | in `findAll`'s statement, there are as many values as clauses and the j-th placeholder binds the j-th defined filter's wrapped value |
| QueryBuilder.Where | lib/database.js:115-117 | `WHERE` appears exactly when there is at least one clause |
| QueryBuilder.OrderBy | lib/database.js:119-121 | `ORDER BY` appears exactly when `sort.field` is truthy |
| QueryBuilder.Direction | lib/database.js:120 | the direction is `DESC` exactly when `sort.order` is the string "desc", and `ASC` otherwise |
| QueryBuilder.FilterIsCaseInsensitiveSubstring | lib/database.js:107-113 | for text columns: when no filter value holds `%`, `_` or `\`, a row satisfies the clauses exactly when every filtered column contains the value, ignoring case |
| QueryBuilder.TitleFilterMatchesAlphaRelease | lib/database.js:109-110 | the filter `{title: 'alpha'}` selects a post titled "Alpha Release" |
| QueryBuilder.SelectById | lib/database.js:134 | `findById`'s statement, the select by id with the id as its only parameter |
| QueryBuilder.DeleteById | lib/database.js:180 | `delete`'s statement, the delete by id with the id as its only parameter |
| QueryBuilder.InsertStatement | lib/database.js:141-149 | `create`'s statement: the columns of `Object.keys(data)`, the placeholders `$1…$n` and the parameters `Object.values(data)`; `InsertBindsEachColumn` ties each column to its value |
| QueryBuilder.SetClauses | lib/database.js:159-160 | one `k = $(i+2)` clause per entry of `data`, as many as entries |
| QueryBuilder.UpdateStatement | lib/database.js:159-170 | `update`'s statement: the set clauses, `WHERE id = $1`, and the parameters `[id, ...values]`; `UpdateBindsIdAndFields` ties each placeholder to its value |
| QueryBuilder.InsertBindsEachColumn | lib/database.js:141-151 | in `create`'s statement, the placeholder of the i-th column of `Object.keys(data)` binds that column's value |
| QueryBuilder.UpdateBindsIdAndFields | lib/database.js:159-170 | in `update`'s statement, `$1` binds the id and the placeholder of the i-th set clause binds that field's value |
| QueryBuilder.PostsSearch | lib/database.js:187-197 | the posts search, on title, description and author, with `%lowercase(query)%` as `$1` |
| QueryBuilder.UsersSearch | lib/database.js:187-208 | the users search, on username, display name and id, with `%lowercase(query)%` as `$1` and `%query%` as `$2` |
| QueryBuilder.SearchPatternsAreSubstringTests | lib/database.js:187-208 | the search binds `%lowercase(query)%`, a case-insensitive substring test on the lowered columns, and, for users, `%query%`, a case-sensitive one on the id |
| Js.StringifyIgnoresUndefined | lib/database.js:98 | `JSON.stringify` writes an object exactly as it writes the object without its `undefined` properties |
| Js.NatToStringInjective | lib/database.js:109 | distinct placeholder numbers render as distinct numerals |
| Js.PutGet | lib/database.js:221 | after `parsed[camelKey] = value`, that property reads `value` and every other property reads as before |
| Js.PutKeys | lib/database.js:221 | the assignment overwrites an existing property in place and appends a new one at the end |
| Js.PutKeepsDistinct | lib/database.js:221 | the assignment never gives the object a property twice |
| Database.ParseAll | lib/database.js:124 | `result.rows.map(parseRow)` parses every row, in order, into an object with distinct keys |
| Database.Db.constructor | lib/database.js:4 | the layer starts with an empty cache and no statement sent |
| Database.Db.FindAll | lib/database.js:97-127 | a truthy cached list under the list key is returned with no statement sent; otherwise the filter query is sent; on rows, the parsed rows are cached under the list key, stamped with the clock after the query, and returned; on an error, the operation rejects |
| Database.Db.FindById | lib/database.js:129-138 | a truthy cached record is returned with no statement sent; otherwise the select by id is sent; the first row, parsed, is cached, stamped with the clock after the query, and returned; no row gives `null` and caches nothing |
| Database.Db.Create | lib/database.js:140-156 | the insert is sent; the returned row, parsed, is cached under the key of its own `id`, `table:all` is deleted, and the row is returned; with no row the operation throws and the cache is untouched |
| Database.Db.Update | lib/database.js:158-177 | the update is sent; a returned row is parsed, cached under the key of `id`, `table:all` is deleted, and the row is returned; no row gives `null` with the cache untouched |
| Database.Db.Delete | lib/database.js:179-184 | the delete is sent; then the record key and `table:all` are deleted and the result is `true`, whether or not a row matched |
| Database.Db.Search | lib/database.js:186-213 | the posts query is sent exactly when the kind is "all" or "posts", and then the users query exactly when it is "all" or "users"; any other kind sends nothing and returns both lists empty; the cache is untouched |
| Database.WriteThenFindByIdHits | lib/database.js:153-154 | after `create` or `update`, `findById` of the same id is served from the cache until the time-to-live runs out, unless the id renders as "all" |
| Database.WriteOfIdAllIsNotCached | lib/database.js:153-154 | a record whose id renders as "all" is deleted from the cache by the invalidation that follows its own write |
| Database.DeleteThenFindByIdMisses | lib/database.js:181-182 | after `delete`, `findById` of the same id misses the cache |
| Database.DeleteLeavesListsCached | lib/database.js:181-182 | `delete` leaves every cached list of the table served as before, except the list whose key is the deleted record's key (the unfiltered, unsorted list, for the id "all:{}:{}") |
| Database.WriteLeavesListsCached | lib/database.js:153-154 | `create` and `update` leave every cached list of the table served as before, except the list whose key is the written record's key (the unfiltered, unsorted list, for the id "all:{}:{}") and one evicted as the oldest entry of a full cache |
| Database.CreateThenFindById | lib/database.js:129-156 | `create` then `findById` of the new id within the time-to-live sends only the insert and returns the created row |
| Helpers.CreatePost | lib/helpers.js:42-55 | a post has exactly the properties `id`, `title`, `icon`, `thumbnail`, `whatnews`, `description`, `author`, `createdAt`, `links`, `stats`, each once, in that order; `null` data throws |
| Helpers.PostValues | lib/helpers.js:44-53 | the ten values of the post literal, in order, each `data.x || default` as written; `CreatePostFields` states them one by one |
| Helpers.CreatePostFields | lib/helpers.js:44-53 | the given id; each of title, icon, thumbnail, whatnews, description, author and links is the supplied value when truthy and otherwise "Post", "_url", "_url", the first-version list, "", "id" and `null`; `createdAt` is the clock; stats are all zero whatever `data` says |
| Helpers.PostHasDisplayFields | lib/helpers.js:45-52 | a new post always has a truthy title, icon, thumbnail, version list and author, and its links are `null` or truthy |
| Helpers.CreatePostIsIdempotent | lib/helpers.js:42-55 | building a post from a built post with the same clock gives it back |
| Helpers.CreateUser | lib/helpers.js:57-70 | a user has exactly the properties `id`, `username`, `email`, `displayName`, `avatar`, `bio`, `createdAt`, `favorites`, `following`, `followers`, each once, in that order; `null` data throws |
| Helpers.UserValues | lib/helpers.js:59-69 | the ten values of the user literal, in order; `CreateUserFields` states them one by one |
| Helpers.CreateUserFields | lib/helpers.js:58-69 | the given id; username, email, displayName, avatar and bio are the supplied value when truthy and otherwise "user", "", "User", "_url" and ""; `createdAt` is the clock; the three lists are empty whatever `data` says |
| Helpers.CreateUserIsIdempotent | lib/helpers.js:57-70 | building a user from a built user with the same clock gives it back |
| Helpers.CreateComment | lib/helpers.js:72-83 | a comment has exactly the properties `id`, `postId`, `userId`, `text`, `timestamp`, `likes`, `dislikes`, `replies`, each once, in that order; `null` data throws |
| Helpers.CommentValues | lib/helpers.js:74-82 | the eight values of the comment literal, in order; `CreateCommentFields` states them one by one |
| Helpers.CreateCommentFields | lib/helpers.js:73-82 | `postId` is copied as supplied, even when missing; userId and text are the supplied value when truthy and otherwise "anonymous" and ""; `timestamp` is the clock; likes and dislikes are 0 and replies empty whatever `data` says |
| Helpers.CommentWithoutPostIdOmitsIt | lib/helpers.js:75 | a comment built without a `postId` serialises as JSON without one |
| Helpers.CreateCommentIsIdempotent | lib/helpers.js:72-83 | building a comment from a built comment with the same clock gives it back |

## Left out

- `initDB` (lib/database.js:30-93) creates the tables and indexes. It only issues schema statements to the external database, so it has no behaviour of the layer to state.
- Executing statements inside Postgres is outside the model. `engine` stands for it, so nothing is said about which rows a query returns. The `LIMIT 50` of the search queries and the SQL constraint errors belong to it too. `ILIKE` and `LIKE` are modelled separately (`SqlPattern`), without the escape character; the substring lemmas therefore speak only of values that contain no `%`, `_` or `\`.
- `randomId` (lib/database.js:226-228) uses `Math.random`, which is floating point and nondeterministic.
- `Date.now()` is a parameter (`now`, and `stored` for the second reading in `findAll` and `findById`); the model does not require the two readings to be ordered.
- lib/storage.js is not part of this model. It does multipart streaming and blob-store calls, which are I/O over libraries not modelled here.
- The HTTP helpers of lib/helpers.js and the handlers under api/ are not part of this model. These are `requireAppAuth`, `parseBody`, `sendJSON`, `sendError` and `setCORS`, and the handlers are request and response plumbing.
- Concurrent requests that interleave on the shared cache between `await`s are not modelled. Operations run one after another.
- Numbers are integers, which is all the layer handles (ids, counters, epoch milliseconds). `NaN`, fractions and the ordering JavaScript gives integer-like property names are not modelled. `String(n)` and `JSON.stringify` are modelled as plain decimal digits for every integer. JavaScript switches to exponent form from 1e21 and loses precision beyond 2^53; neither is modelled.
- `toLowerCase` and `ILIKE` fold ASCII letters only, not full Unicode.
- `findAll` and `findById` return the cached array or object itself, so a caller that mutated a result would change what later hits return. The model holds values, not shared references, so this aliasing is not captured.
- A `findAll` filter on an unknown or non-text column makes Postgres reject the statement. That rejection is the engine's, and `QueryBuilder.ColumnILike` counts such a row as not matching, so the filter lemmas speak about text columns only.
- Reading properties of `data` in the builders sees only an object's own properties. A non-object `data` other than `null` has none of the names read. Prototype properties are not modelled.
- `Database.Db.FindAll`, `Database.Db.FindById`, `Database.Db.Create`, `Database.Db.Update` and `Database.Db.Delete` take `data`, `filters` and `sort` as plain objects, not arbitrary values. `Object.entries` of a non-object argument is not modelled.
- `Database.Db.Search` takes the query as a string. A non-string query, on which `toLowerCase` throws, is not modelled.
