/** The strings the data-access layer of lib/database.js builds: cache
    keys, and the parameterised statements it hands to `sql.query(text,
    params)`. Values always travel as numbered `$k` parameters; table names,
    column names and the sort field are spliced into the text as given. */
module QueryBuilder {
  import opened Js
  import opened SqlPattern

  datatype Option<T> = None | Some(value: T)

  /** A statement as passed to `sql.query(text, params)`. */
  datatype Statement = Statement(text: string, params: seq<JsValue>)

  // ---------------------------------------------------------------- keys

  /** `cacheKey(table, id)`, the key of a single record. */
  function RecordKey(table: string, id: JsValue): string {
    table + ":" + TemplateString(id)
  }

  /** `${table}:all`, the key the writes delete to invalidate lists. */
  function AllKey(table: string): string {
    table + ":all"
  }

  /** The key `findAll` caches a list under. */
  function ListKey(table: string, filters: Props, sort: Props): string {
    table + ":all:" + Stringify(Obj(filters)) + ":" + Stringify(Obj(sort))
  }

  /** The key the writes delete is never the key of any list: a list cached
      by `findAll` survives every `create`, `update` and `delete` on its
      table. */
  lemma ListKeyIsNeverAllKey(table: string, filters: Props, sort: Props)
    ensures ListKey(table, filters, sort) != AllKey(table)
  {
    assert |ListKey(table, filters, sort)| > |AllKey(table)|;
  }

  /** The keys are not separated by kind: the record key of the id
      "all:{}:{}" is the key of the unfiltered, unsorted list, so `findById`
      and `findAll` can read each other's entries. */
  lemma RecordKeyCanBeListKey(table: string)
    ensures RecordKey(table, Str("all:{}:{}")) == ListKey(table, [], [])
  {
    assert Stringify(Obj([])) == "{}";
    assert table + ":" + "all:{}:{}" == table + ":all:" + "{}" + ":" + "{}";
  }

  /** The key the writes delete is a record key only for the id "all". */
  lemma RecordKeyIsAllKeyIff(table: string, id: JsValue)
    ensures RecordKey(table, id) == AllKey(table) <==> TemplateString(id) == "all"
  {
    if RecordKey(table, id) == AllKey(table) {
      assert RecordKey(table, id)[|table| + 1..] == TemplateString(id);
      assert AllKey(table)[|table| + 1..] == "all";
    }
  }

  /** Filters whose value is `undefined` change neither the list key nor
      the query `findAll` sends. */
  lemma ListKeyIgnoresUndefinedFilters(table: string, filters: Props, sort: Props)
    ensures ListKey(table, filters, sort) == ListKey(table, Defined(filters), sort)
    ensures FindAllStatement(table, filters, sort) == FindAllStatement(table, Defined(filters), sort)
  {
    StringifyIgnoresUndefined(filters);
    DefinedIdempotent(filters);
  }

  lemma {:induction false} DefinedIdempotent(props: Props)
    ensures Defined(Defined(props)) == Defined(props)
  {
    if props != [] {
      DefinedIdempotent(props[1..]);
      if props[0].1 != Undefined {
        assert Defined(props) == [props[0]] + Defined(props[1..]);
        assert Defined(props)[1..] == Defined(props[1..]);
      }
    }
  }

  lemma {:induction false} DefinedAppend(props: Props, p: (string, JsValue))
    ensures Defined(props + [p]) == Defined(props) + (if p.1 == Undefined then [] else [p])
  {
    if props != [] {
      assert (props + [p])[1..] == props[1..] + [p];
      DefinedAppend(props[1..], p);
    } else {
      assert Defined([p]) == (if p.1 == Undefined then [] else [p]) + Defined([]);
    }
  }

  // ---------------------------------------------------------- placeholders

  /** `$k` */
  function Placeholder(k: nat): string {
    "$" + NatToString(k)
  }

  /** `$first, ..., $(first + n - 1)` as a list. */
  function Placeholders(first: nat, n: nat): (r: seq<string>)
    ensures |r| == n
    ensures forall i :: 0 <= i < n ==> r[i] == Placeholder(first + i)
  {
    seq(n, i requires 0 <= i < n => Placeholder(first + i))
  }

  /** The value the engine binds to a placeholder: `$k` stands for the k-th
      parameter, counting from 1. */
  function Resolve(params: seq<JsValue>, placeholder: string): Option<JsValue> {
    if |placeholder| >= 2 && placeholder[0] == '$'
       && forall i :: 1 <= i < |placeholder| ==> '0' <= placeholder[i] <= '9'
    then
      var k := DigitsValue(placeholder[1..]);
      if 1 <= k <= |params| then Some(params[k - 1]) else None
    else None
  }

  /** `$k` binds the k-th parameter and nothing else. */
  lemma ResolvePlaceholder(params: seq<JsValue>, k: nat)
    requires 1 <= k <= |params|
    ensures Resolve(params, Placeholder(k)) == Some(params[k - 1])
  {
    var p := Placeholder(k);
    assert p[1..] == NatToString(k);
    NatToStringRoundTrip(k);
  }

  // ------------------------------------------------------------- findAll

  /** The clauses `field ILIKE $k` for the filters `d`, numbered from 1. */
  function FilterConditions(d: Props): (r: seq<string>)
    ensures |r| == |d|
    ensures forall j :: 0 <= j < |d| ==> r[j] == d[j].0 + " ILIKE " + Placeholder(j + 1)
  {
    seq(|d|, j requires 0 <= j < |d| => d[j].0 + " ILIKE " + Placeholder(j + 1))
  }

  /** The values bound to those clauses: each filter value as `%value%`. */
  function FilterValues(d: Props): (r: seq<JsValue>)
    ensures |r| == |d|
    ensures forall j :: 0 <= j < |d| ==> r[j] == Str(Wrap(TemplateString(d[j].1)))
  {
    seq(|d|, j requires 0 <= j < |d| => Str(Wrap(TemplateString(d[j].1))))
  }

  /** One more defined filter adds one clause and one value at the end. */
  lemma FilterAppend(d: Props, p: (string, JsValue))
    ensures FilterConditions(d + [p]) == FilterConditions(d) + [p.0 + " ILIKE " + Placeholder(|d| + 1)]
    ensures FilterValues(d + [p]) == FilterValues(d) + [Str(Wrap(TemplateString(p.1)))]
  {
    var d' := d + [p];
    assert forall j :: 0 <= j < |d| ==> d'[j] == d[j];
  }

  /** The query `findAll` sends for its filters and sort. */
  function FindAllStatement(table: string, filters: Props, sort: Props): Statement {
    var d := Defined(filters);
    Statement(SelectText(table, FilterConditions(d), sort), FilterValues(d))
  }

  /** In `findAll`'s query the j-th clause's placeholder binds the j-th
      defined filter's wrapped value, and there are as many values as
      clauses. */
  lemma FindAllBindsEachFilter(table: string, filters: Props, sort: Props, j: nat)
    requires j < |Defined(filters)|
    ensures |FindAllStatement(table, filters, sort).params| == |Defined(filters)|
    ensures Resolve(FindAllStatement(table, filters, sort).params, Placeholder(j + 1))
         == Some(Str(Wrap(TemplateString(Defined(filters)[j].1))))
  {
    ResolvePlaceholder(FilterValues(Defined(filters)), j + 1);
  }

  /** The clauses and values of `findAll`: one pass over
      `Object.entries(filters)`, skipping `undefined` values and
      counting placeholders up from 1. */
  method BuildFilter(filters: Props) returns (conditions: seq<string>, values: seq<JsValue>)
    ensures conditions == FilterConditions(Defined(filters))
    ensures values == FilterValues(Defined(filters))
  {
    conditions, values := [], [];
    var paramCount := 1;
    var i := 0;
    while i < |filters|
      invariant 0 <= i <= |filters|
      invariant paramCount == |conditions| + 1
      invariant conditions == FilterConditions(Defined(filters[..i]))
      invariant values == FilterValues(Defined(filters[..i]))
    {
      var (field, value) := filters[i];
      assert filters[..i + 1] == filters[..i] + [filters[i]];
      DefinedAppend(filters[..i], filters[i]);
      FilterAppend(Defined(filters[..i]), filters[i]);
      if value != Undefined {
        conditions := conditions + [field + " ILIKE " + Placeholder(paramCount)];
        values := values + [Str("%" + TemplateString(value) + "%")];
        paramCount := paramCount + 1;
      }
      i := i + 1;
    }
    assert filters[..|filters|] == filters;
  }

  /** ` ORDER BY field ASC|DESC`, present exactly when `sort.field` is
      truthy; the direction is `DESC` exactly when `sort.order === 'desc'`. */
  function OrderBy(sort: Props): (r: string)
    ensures r != "" <==> Truthy(Get(sort, "field"))
  {
    if Truthy(Get(sort, "field")) then " ORDER BY " + TemplateString(Get(sort, "field")) + " " + Direction(sort)
    else ""
  }

  /** `sort.order === 'desc' ? 'DESC' : 'ASC'`: only the exact string
      "desc" sorts descending; "DESC", a missing order or anything else
      sorts ascending. */
  function Direction(sort: Props): (r: string)
    ensures r == "DESC" || r == "ASC"
    ensures r == "DESC" <==> Get(sort, "order") == Str("desc")
  {
    if Get(sort, "order") == Str("desc") then "DESC" else "ASC"
  }

  /** ` WHERE c1 AND c2 ...`, present exactly when there is a condition. */
  function Where(conditions: seq<string>): (r: string)
    ensures r != "" <==> |conditions| > 0
  {
    if |conditions| > 0 then " WHERE " + Join(conditions, " AND ") else ""
  }

  /** The text of `findAll`'s query. */
  function SelectText(table: string, conditions: seq<string>, sort: Props): string {
    "SELECT * FROM " + table + Where(conditions) + OrderBy(sort)
  }

  /** The statement `findAll` builds: the text grows by `+=`, with a WHERE
      part only when there are clauses. */
  method FindAllQuery(table: string, filters: Props, sort: Props) returns (stmt: Statement)
    ensures stmt == FindAllStatement(table, filters, sort)
  {
    var conditions, values := BuildFilter(filters);
    var text := "SELECT * FROM " + table;
    if |conditions| > 0 {
      text := text + " WHERE " + Join(conditions, " AND ");
    }
    text := text + OrderBy(sort);
    stmt := Statement(text, values);
  }

  /** Whether a stored row satisfies `field ILIKE pattern`, for text
      columns. Postgres rejects the statement when the column is unknown or
      not text; the model's convention is to count such a row as not
      matching, so the lemmas below say something only about text columns. */
  predicate ColumnILike(row: Props, field: string, pattern: string) {
    match Get(row, field)
    case Str(s) => ILike(pattern, s)
    case _ => false
  }

  /** Whether a stored row satisfies all the clauses `BuildFilter` builds. */
  predicate SatisfiesFilter(row: Props, filters: Props) {
    var d := Defined(filters);
    forall j :: 0 <= j < |d| ==> ColumnILike(row, d[j].0, Wrap(TemplateString(d[j].1)))
  }

  /** The "fuzzy filter" the clauses amount to: every filtered column is
      text and contains the filter value, ignoring case. */
  ghost predicate ContainsEveryFilter(row: Props, filters: Props) {
    var d := Defined(filters);
    forall j :: 0 <= j < |d| ==>
      Get(row, d[j].0).Str? && Contains(Lower(Get(row, d[j].0).s), Lower(TemplateString(d[j].1)))
  }

  /** When no filter value holds a `%` or `_`, `findAll`'s WHERE clause is
      exactly a case-insensitive substring test per filter. */
  lemma FilterIsCaseInsensitiveSubstring(row: Props, filters: Props)
    requires forall p :: p in filters ==> NoWildcards(TemplateString(p.1))
    ensures SatisfiesFilter(row, filters) <==> ContainsEveryFilter(row, filters)
  {
    var d := Defined(filters);
    forall j | 0 <= j < |d|
      ensures ColumnILike(row, d[j].0, Wrap(TemplateString(d[j].1)))
          <==> (Get(row, d[j].0).Str? && Contains(Lower(Get(row, d[j].0).s), Lower(TemplateString(d[j].1))))
    {
      assert d[j] in filters;
      if Get(row, d[j].0).Str? {
        ILikeWrapIsCaseInsensitiveSubstringTest(TemplateString(d[j].1), Get(row, d[j].0).s);
      }
    }
  }

  /** The scenario of a title filter: `{title: 'alpha'}` selects a post
      titled "Alpha Release". */
  lemma TitleFilterMatchesAlphaRelease()
    ensures SatisfiesFilter([("title", Str("Alpha Release"))], [("title", Str("alpha"))])
  {
    var filters := [("title", Str("alpha"))];
    var row := [("title", Str("Alpha Release"))];
    assert Defined(filters) == filters;
    FilterIsCaseInsensitiveSubstring(row, filters);
    assert Lower("alpha") == "alpha";
    assert Lower("Alpha Release")[0..5] == "alpha";
    assert OccursAt(Lower("Alpha Release"), "alpha", 0);
  }

  // ----------------------------------------------------- other statements

  /** `findById`'s query. */
  function SelectById(table: string, id: JsValue): Statement {
    Statement("SELECT * FROM " + table + " WHERE id = $1", [id])
  }

  /** `delete`'s statement. */
  function DeleteById(table: string, id: JsValue): Statement {
    Statement("DELETE FROM " + table + " WHERE id = $1", [id])
  }

  /** `create`'s statement: the columns are `Object.keys(data)`, the values
      `Object.values(data)`, and the i-th column gets `$(i + 1)`. */
  function InsertStatement(table: string, data: Props): Statement {
    Statement(
      "\n      INSERT INTO " + table + " (" + Join(Keys(data), ", ") + ")\n      VALUES ("
        + Join(Placeholders(1, |data|), ", ") + ")\n      RETURNING *\n    ",
      Values(data))
  }

  /** Each inserted column's placeholder binds that column's own value. */
  lemma InsertBindsEachColumn(table: string, data: Props, i: nat)
    requires i < |data|
    ensures Resolve(InsertStatement(table, data).params, Placeholders(1, |data|)[i]) == Some(data[i].1)
  {
    ResolvePlaceholder(Values(data), i + 1);
  }

  /** `k = $(i + 2)` for the i-th entry of `data`. */
  function SetClauses(data: Props): (r: seq<string>)
    ensures |r| == |data|
    ensures forall i :: 0 <= i < |data| ==> r[i] == data[i].0 + " = " + Placeholder(i + 2)
  {
    seq(|data|, i requires 0 <= i < |data| => data[i].0 + " = " + Placeholder(i + 2))
  }

  /** `update`'s statement: `$1` is the id, the set values follow. */
  function UpdateStatement(table: string, id: JsValue, data: Props): Statement {
    Statement(
      "\n      UPDATE " + table + "\n      SET " + Join(SetClauses(data), ", ")
        + "\n      WHERE id = $1\n      RETURNING *\n    ",
      [id] + Values(data))
  }

  /** In `update`, `$1` binds the id and the placeholder of each set
      clause binds that field's new value. */
  lemma UpdateBindsIdAndFields(table: string, id: JsValue, data: Props, i: nat)
    requires i < |data|
    ensures Resolve(UpdateStatement(table, id, data).params, Placeholder(1)) == Some(id)
    ensures Resolve(UpdateStatement(table, id, data).params, Placeholder(i + 2)) == Some(data[i].1)
  {
    var params := [id] + Values(data);
    ResolvePlaceholder(params, 1);
    ResolvePlaceholder(params, i + 2);
  }

  // -------------------------------------------------------------- search

  const PostsSearchText: string :=
    "\n        SELECT * FROM posts\n        WHERE LOWER(title) LIKE $1\n           OR LOWER(description) LIKE $1\n           OR LOWER(author) LIKE $1\n        LIMIT 50\n      "

  const UsersSearchText: string :=
    "\n        SELECT * FROM users\n        WHERE LOWER(username) LIKE $1\n           OR LOWER(display_name) LIKE $1\n           OR id LIKE $2\n        LIMIT 50\n      "

  /** The posts query of `search`: `$1` is the lower-cased query wrapped
      as `%q%`. */
  function PostsSearch(query: string): Statement {
    Statement(PostsSearchText, [Str(Wrap(Lower(query)))])
  }

  /** The users query of `search`: `$1` as for posts, `$2` the query
      wrapped without lower-casing. */
  function UsersSearch(query: string): Statement {
    Statement(UsersSearchText, [Str(Wrap(Lower(query))), Str(Wrap(query))])
  }

  /** `type === 'all' || type === 'posts'` */
  predicate SearchesPosts(kind: string) {
    kind == "all" || kind == "posts"
  }

  /** `type === 'all' || type === 'users'` */
  predicate SearchesUsers(kind: string) {
    kind == "all" || kind == "users"
  }

  /** `LOWER(column) LIKE $1` with the bound `%lower(q)%` is a
      case-insensitive substring test; `id LIKE $2` with `%q%` is a
      case-sensitive one. */
  lemma SearchPatternsAreSubstringTests(query: string, column: string, id: string)
    requires NoWildcards(query)
    ensures Like(PostsSearch(query).params[0].s, Lower(column)) <==> Contains(Lower(column), Lower(query))
    ensures Like(UsersSearch(query).params[0].s, Lower(column)) <==> Contains(Lower(column), Lower(query))
    ensures Like(UsersSearch(query).params[1].s, id) <==> Contains(id, query)
  {
    assert NoWildcards(Lower(query));
    WrapIsSubstringTest(Lower(query), Lower(column));
    WrapIsSubstringTest(query, id);
  }
}
