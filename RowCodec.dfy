/** `parseRow` of lib/database.js: every column name of a row coming back
    from the database is rewritten from snake_case to camelCase with the
    global replacement `/_([a-z])/g` -> upper-case letter, and the values
    are copied unchanged into a fresh object, one property assignment per
    column. */
module RowCodec {
  import opened Js

  predicate IsLowerLetter(c: char) {
    'a' <= c <= 'z'
  }

  predicate IsUpperLetter(c: char) {
    'A' <= c <= 'Z'
  }

  function Upper(c: char): (r: char)
    requires IsLowerLetter(c)
    ensures IsUpperLetter(r)
  {
    (c as int - 32) as char
  }

  /** `key.replace(/_([a-z])/g, (_, l) => l.toUpperCase())`: the regular
      expression is tried at each position from the left; a match consumes
      two characters, anything else is copied. */
  function CamelCase(key: string): string {
    if |key| >= 2 && key[0] == '_' && IsLowerLetter(key[1]) then [Upper(key[1])] + CamelCase(key[2..])
    else if key == [] then []
    else [key[0]] + CamelCase(key[1..])
  }

  /** Whether `/_([a-z])/` matches somewhere in `s`. */
  predicate HasSnakeMatch(s: string) {
    exists i :: 0 <= i < |s| - 1 && s[i] == '_' && IsLowerLetter(s[i + 1])
  }

  /** A column name as the schema writes them: lower-case letters, digits
      and underscores. */
  predicate IsSnakeName(s: string) {
    forall i :: 0 <= i < |s| ==> IsLowerLetter(s[i]) || ('0' <= s[i] <= '9') || s[i] == '_'
  }

  /** A key with no `_` followed by a lower-case letter passes through
      unchanged. */
  lemma {:induction false} CamelCaseKeepsPlainKey(key: string)
    requires !HasSnakeMatch(key)
    ensures CamelCase(key) == key
  {
    if key != [] {
      assert !HasSnakeMatch(key[1..]) by {
        forall i | 0 <= i < |key[1..]| - 1
          ensures !(key[1..][i] == '_' && IsLowerLetter(key[1..][i + 1]))
        {
          assert key[1..][i] == key[i + 1] && key[1..][i + 1] == key[i + 2];
        }
      }
      CamelCaseKeepsPlainKey(key[1..]);
    }
  }

  /** The first character of a converted key is the key's own first
      character, or the upper-cased letter of a leading `_x`. */
  lemma CamelCaseHead(key: string)
    requires key != []
    ensures CamelCase(key) != []
    ensures CamelCase(key)[0] == key[0] || (key[0] == '_' && IsUpperLetter(CamelCase(key)[0]))
  {
  }

  /** No `_x` with a lower-case `x` survives the conversion. */
  lemma {:induction false} CamelCaseLeavesNoMatch(key: string)
    ensures !HasSnakeMatch(CamelCase(key))
    decreases |key|
  {
    if key == [] {
    } else if |key| >= 2 && key[0] == '_' && IsLowerLetter(key[1]) {
      CamelCaseLeavesNoMatch(key[2..]);
      ConsNoMatch(Upper(key[1]), CamelCase(key[2..]));
    } else {
      CamelCaseLeavesNoMatch(key[1..]);
      if key[0] == '_' && |key| >= 2 {
        CamelCaseHead(key[1..]);
      }
      ConsNoMatch(key[0], CamelCase(key[1..]));
    }
  }

  /** Putting `c` in front of a string without a match creates one only
      when `c` is `_` and the string starts with a lower-case letter. */
  lemma ConsNoMatch(c: char, rest: string)
    requires !HasSnakeMatch(rest)
    requires c == '_' ==> rest == [] || !IsLowerLetter(rest[0])
    ensures !HasSnakeMatch([c] + rest)
  {
    var s := [c] + rest;
    forall i | 0 <= i < |s| - 1
      ensures !(s[i] == '_' && IsLowerLetter(s[i + 1]))
    {
      if i > 0 {
        assert s[i] == rest[i - 1] && s[i + 1] == rest[i];
      }
    }
  }

  /** Converting an already converted key changes nothing. */
  lemma CamelCaseIdempotent(key: string)
    ensures CamelCase(CamelCase(key)) == CamelCase(key)
  {
    CamelCaseLeavesNoMatch(key);
    CamelCaseKeepsPlainKey(CamelCase(key));
  }

  /** The reverse rename: each upper-case letter becomes `_` and its
      lower-case form. */
  function SnakeCase(name: string): string {
    if name == [] then []
    else if IsUpperLetter(name[0]) then ['_', LowerChar(name[0])] + SnakeCase(name[1..])
    else [name[0]] + SnakeCase(name[1..])
  }

  /** On column names of the schema's form the conversion loses nothing:
      the snake_case name can be recovered from the camelCase one. */
  lemma {:induction false} SnakeCaseRecoversColumn(column: string)
    requires IsSnakeName(column)
    ensures SnakeCase(CamelCase(column)) == column
    decreases |column|
  {
    if column == [] {
    } else if |column| >= 2 && column[0] == '_' && IsLowerLetter(column[1]) {
      assert IsSnakeName(column[2..]) by {
        forall i | 0 <= i < |column[2..]| ensures IsLowerLetter(column[2..][i]) || ('0' <= column[2..][i] <= '9') || column[2..][i] == '_' {
          assert column[2..][i] == column[i + 2];
        }
      }
      SnakeCaseRecoversColumn(column[2..]);
      assert CamelCase(column) == [Upper(column[1])] + CamelCase(column[2..]);
      assert ([Upper(column[1])] + CamelCase(column[2..]))[1..] == CamelCase(column[2..]);
      assert column == ['_', column[1]] + column[2..];
    } else {
      assert IsSnakeName(column[1..]) by {
        forall i | 0 <= i < |column[1..]| ensures IsLowerLetter(column[1..][i]) || ('0' <= column[1..][i] <= '9') || column[1..][i] == '_' {
          assert column[1..][i] == column[i + 1];
        }
      }
      SnakeCaseRecoversColumn(column[1..]);
      assert CamelCase(column) == [column[0]] + CamelCase(column[1..]);
      assert ([column[0]] + CamelCase(column[1..]))[1..] == CamelCase(column[1..]);
      assert column == [column[0]] + column[1..];
    }
  }

  /** Two different column names never convert to the same property name. */
  lemma CamelCaseInjectiveOnColumns(a: string, b: string)
    requires IsSnakeName(a) && IsSnakeName(b) && a != b
    ensures CamelCase(a) != CamelCase(b)
  {
    SnakeCaseRecoversColumn(a);
    SnakeCaseRecoversColumn(b);
  }

  /** The object `parseRow` builds, one assignment
      `parsed[camelKey] = value` per column in order: when two columns
      convert to the same name, the later value wins at the earlier
      position. */
  function Parsed(row: Props): Props {
    if row == [] then []
    else
      var last := row[|row| - 1];
      Put(Parsed(row[..|row| - 1]), CamelCase(last.0), last.1)
  }

  /** The row with each column renamed, position for position. */
  function Renamed(row: Props): (r: Props)
    ensures |r| == |row|
    ensures forall i :: 0 <= i < |row| ==> r[i] == (CamelCase(row[i].0), row[i].1)
  {
    seq(|row|, i requires 0 <= i < |row| => (CamelCase(row[i].0), row[i].1))
  }

  /** Whatever the row, the result is a well-formed object. */
  lemma {:induction false} ParsedHasDistinctKeys(row: Props)
    ensures DistinctKeys(Parsed(row))
    decreases |row|
  {
    if row != [] {
      var last := row[|row| - 1];
      ParsedHasDistinctKeys(row[..|row| - 1]);
      PutKeepsDistinct(Parsed(row[..|row| - 1]), CamelCase(last.0), last.1);
    }
  }

  /** Every column's value is kept, under the converted name, unless a
      later column converts to the same name. */
  lemma {:induction false} ParsedKeepsValues(row: Props, i: nat)
    requires i < |row|
    requires forall j :: i < j < |row| ==> CamelCase(row[j].0) != CamelCase(row[i].0)
    ensures Get(Parsed(row), CamelCase(row[i].0)) == row[i].1
    decreases |row|
  {
    var init := row[..|row| - 1];
    var last := row[|row| - 1];
    PutGet(Parsed(init), CamelCase(last.0), last.1, CamelCase(row[i].0));
    if i < |row| - 1 {
      assert forall j :: i < j < |init| ==> init[j] == row[j];
      ParsedKeepsValues(init, i);
    }
  }

  /** A row as the database returns it (distinct snake_case column names)
      becomes the same properties in the same order with only their names
      converted. */
  lemma ParsedRenamesColumns(row: Props)
    requires DistinctKeys(row)
    requires forall i :: 0 <= i < |row| ==> IsSnakeName(row[i].0)
    ensures Parsed(row) == Renamed(row)
    ensures Values(Parsed(row)) == Values(row)
  {
    ParsedIsRenamed(row);
  }

  /** A row as the database returns it: distinct snake_case column names. */
  ghost predicate ColumnRow(row: Props) {
    DistinctKeys(row) && forall i :: 0 <= i < |row| ==> IsSnakeName(row[i].0)
  }

  lemma {:induction false} ParsedIsRenamed(row: Props)
    requires ColumnRow(row)
    ensures Parsed(row) == Renamed(row)
    decreases |row|
  {
    if row != [] {
      var init := row[..|row| - 1];
      var last := row[|row| - 1];
      InitIsColumnRow(row);
      ParsedIsRenamed(init);
      LastNameIsNew(row);
      PutAppends(Renamed(init), CamelCase(last.0), last.1);
      RenamedAppend(row);
    }
  }

  /** All but the last column of a row of distinct snake_case columns are
      again such a row. */
  lemma InitIsColumnRow(row: Props)
    requires row != [] && ColumnRow(row)
    ensures ColumnRow(row[..|row| - 1])
  {
    var init := row[..|row| - 1];
    forall i, j | 0 <= i < j < |init| ensures init[i].0 != init[j].0 {
      assert init[i] == row[i] && init[j] == row[j];
    }
  }

  lemma RenamedAppend(row: Props)
    requires row != []
    ensures Renamed(row) == Renamed(row[..|row| - 1]) + [(CamelCase(row[|row| - 1].0), row[|row| - 1].1)]
  {
    var init := row[..|row| - 1];
    assert forall i :: 0 <= i < |init| ==> init[i] == row[i];
  }

  /** In a row of distinct snake_case columns, the last column's converted
      name is not among the earlier columns' converted names. */
  lemma LastNameIsNew(row: Props)
    requires row != [] && ColumnRow(row)
    ensures CamelCase(row[|row| - 1].0) !in Keys(Renamed(row[..|row| - 1]))
  {
    var init := row[..|row| - 1];
    var last := row[|row| - 1];
    forall i | 0 <= i < |init| ensures Keys(Renamed(init))[i] != CamelCase(last.0) {
      assert init[i] == row[i];
      CamelCaseInjectiveOnColumns(init[i].0, last.0);
    }
  }

  /** Assigning a property the object does not have appends it. */
  lemma {:induction false} PutAppends(props: Props, name: string, v: JsValue)
    requires name !in Keys(props)
    ensures Put(props, name, v) == props + [(name, v)]
    decreases |props|
  {
    if props != [] {
      assert Keys(props) == [props[0].0] + Keys(props[1..]);
      assert props[0].0 != name;
      PutAppends(props[1..], name, v);
      assert Put(props, name, v) == [props[0]] + Put(props[1..], name, v);
      assert [props[0]] + (props[1..] + [(name, v)]) == props + [(name, v)];
    }
  }

  /** `parseRow(row)`: a fresh object filled by one property assignment per
      column, in the order of `Object.entries(row)`. */
  method ParseRow(row: Props) returns (parsed: Props)
    ensures parsed == Parsed(row)
    ensures DistinctKeys(parsed)
    ensures forall i :: (0 <= i < |row| && (forall j :: i < j < |row| ==> CamelCase(row[j].0) != CamelCase(row[i].0)))
                        ==> Get(parsed, CamelCase(row[i].0)) == row[i].1
  {
    parsed := [];
    var i := 0;
    while i < |row|
      invariant 0 <= i <= |row|
      invariant parsed == Parsed(row[..i])
    {
      assert row[..i + 1][..i] == row[..i];
      parsed := Put(parsed, CamelCase(row[i].0), row[i].1);
      i := i + 1;
    }
    assert row[..|row|] == row;
    ParsedHasDistinctKeys(row);
    forall i | 0 <= i < |row| && (forall j :: i < j < |row| ==> CamelCase(row[j].0) != CamelCase(row[i].0))
      ensures Get(parsed, CamelCase(row[i].0)) == row[i].1
    {
      ParsedKeepsValues(row, i);
    }
  }
}
