/** JavaScript values as the data-access layer sees them, and the few
    language operations it relies on: truthiness and `||`, reading and
    assigning properties of plain objects, `String(v)` (what a template
    literal `${v}` produces), `JSON.stringify`, ASCII `toLowerCase`, and
    decimal rendering of integers. */
module Js {

  /** A JavaScript value. Numbers are integers (the layer only ever sees
      ids, counters and epoch milliseconds); objects keep their own
      enumerable properties in insertion order. */
  datatype JsValue =
    | Undefined
    | Null
    | Bool(b: bool)
    | Num(n: int)
    | Str(s: string)
    | Arr(items: seq<JsValue>)
    | Obj(props: Props)

  /** How a JavaScript computation ends: with a value, or by throwing
      (for an `async` function: rejecting) with an error message. */
  datatype Outcome<T> = Ok(value: T) | Threw(reason: string)

  /** The own enumerable properties of a plain object, in insertion order
      (what `Object.entries` yields). */
  type Props = seq<(string, JsValue)>

  /** JavaScript truthiness: `undefined`, `null`, `false`, `0` and `""`
      are falsy; every array and every object is truthy, even an empty one. */
  predicate Truthy(v: JsValue) {
    match v
    case Undefined => false
    case Null => false
    case Bool(b) => b
    case Num(n) => n != 0
    case Str(s) => s != ""
    case Arr(_) => true
    case Obj(_) => true
  }

  /** `a || b` */
  function Or(a: JsValue, b: JsValue): JsValue {
    if Truthy(a) then a else b
  }

  /** `Object.keys(o)` */
  function Keys(props: Props): (r: seq<string>)
    ensures |r| == |props|
    ensures forall i :: 0 <= i < |props| ==> r[i] == props[i].0
  {
    if props == [] then [] else [props[0].0] + Keys(props[1..])
  }

  /** `Object.values(o)` */
  function Values(props: Props): (r: seq<JsValue>)
    ensures |r| == |props|
    ensures forall i :: 0 <= i < |props| ==> r[i] == props[i].1
  {
    seq(|props|, i requires 0 <= i < |props| => props[i].1)
  }

  /** No name occurs twice. */
  ghost predicate Distinct(s: seq<string>) {
    forall i, j :: 0 <= i < j < |s| ==> s[i] != s[j]
  }

  /** A well-formed object has no property twice. */
  ghost predicate DistinctKeys(props: Props) {
    forall i, j :: 0 <= i < j < |props| ==> props[i].0 != props[j].0
  }

  /** `o[name]` on a plain object: the property's value, or `undefined`
      when the object has no such own property. */
  function Get(props: Props, name: string): (r: JsValue)
    ensures name !in Keys(props) ==> r == Undefined
    ensures DistinctKeys(props) ==> forall i :: 0 <= i < |props| && props[i].0 == name ==> r == props[i].1
  {
    if props == [] then Undefined
    else if props[0].0 == name then props[0].1
    else Get(props[1..], name)
  }

  /** `o[name] = v`: an existing property is overwritten where it stands,
      a new one is appended at the end. */
  function Put(props: Props, name: string, v: JsValue): Props {
    if props == [] then [(name, v)]
    else if props[0].0 == name then [(name, v)] + props[1..]
    else [props[0]] + Put(props[1..], name, v)
  }

  /** After `o[name] = v`, reading `name` gives `v` and reading any other
      property gives what it gave before. */
  lemma {:induction false} PutGet(props: Props, name: string, v: JsValue, other: string)
    ensures Get(Put(props, name, v), other) == if other == name then v else Get(props, other)
    decreases |props|
  {
    if props == [] {
    } else if props[0].0 == name {
      assert ([(name, v)] + props[1..])[1..] == props[1..];
    } else {
      PutGet(props[1..], name, v, other);
      assert ([props[0]] + Put(props[1..], name, v))[1..] == Put(props[1..], name, v);
    }
  }

  /** `o[name] = v` keeps the property order and appends `name` at the end
      when the object did not have it. */
  lemma {:induction false} PutKeys(props: Props, name: string, v: JsValue)
    ensures Keys(Put(props, name, v)) == if name in Keys(props) then Keys(props) else Keys(props) + [name]
    decreases |props|
  {
    if props == [] {
    } else if props[0].0 == name {
      assert Keys(props)[0] == name;
      assert ([(name, v)] + props[1..])[1..] == props[1..];
    } else {
      var rest := Put(props[1..], name, v);
      PutKeys(props[1..], name, v);
      assert Keys(props) == [props[0].0] + Keys(props[1..]);
      assert ([props[0]] + rest)[1..] == rest;
      assert Keys([props[0]] + rest) == [props[0].0] + Keys(rest);
    }
  }

  /** `o[name] = v` never gives an object a property twice. */
  lemma {:induction false} PutKeepsDistinct(props: Props, name: string, v: JsValue)
    requires DistinctKeys(props)
    ensures DistinctKeys(Put(props, name, v))
    decreases |props|
  {
    if props == [] {
    } else if props[0].0 == name {
      var r := [(name, v)] + props[1..];
      forall i, j | 0 <= i < j < |r| ensures r[i].0 != r[j].0 {
        assert r[j] == props[j];
        if i > 0 {
          assert r[i] == props[i];
        }
      }
    } else {
      var tail := props[1..];
      assert DistinctKeys(tail) by {
        forall i, j | 0 <= i < j < |tail| ensures tail[i].0 != tail[j].0 {
          assert tail[i] == props[i + 1] && tail[j] == props[j + 1];
        }
      }
      var rest := Put(tail, name, v);
      PutKeepsDistinct(tail, name, v);
      PutKeys(tail, name, v);
      var r := [props[0]] + rest;
      forall i, j | 0 <= i < j < |r| ensures r[i].0 != r[j].0 {
        assert r[j] == rest[j - 1];
        if i == 0 {
          assert Keys(rest)[j - 1] == rest[j - 1].0;
          if j - 1 < |tail| {
            assert Keys(tail)[j - 1] == props[j].0;
          }
        } else {
          assert r[i] == rest[i - 1];
        }
      }
    }
  }

  /** The object literal `{ names[0]: values[0], names[1]: values[1], ... }`. */
  function Record(names: seq<string>, values: seq<JsValue>): (r: Props)
    requires |names| == |values|
    ensures Keys(r) == names && Values(r) == values
    ensures Distinct(names) ==> DistinctKeys(r)
  {
    seq(|names|, i requires 0 <= i < |names| => (names[i], values[i]))
  }

  /** Reading a property of an object literal with distinct names gives
      the value written for it. */
  lemma RecordGet(names: seq<string>, values: seq<JsValue>, i: nat)
    requires |names| == |values| && Distinct(names) && i < |names|
    ensures Get(Record(names, values), names[i]) == values[i]
  {
    assert Record(names, values)[i] == (names[i], values[i]);
  }

  /** The properties whose value is not `undefined`, in order. */
  function Defined(props: Props): (r: Props)
    ensures |r| <= |props|
    ensures forall p :: p in r ==> p in props && p.1 != Undefined
    ensures forall p :: p in props && p.1 != Undefined ==> p in r
  {
    if props == [] then []
    else if props[0].1 == Undefined then Defined(props[1..])
    else [props[0]] + Defined(props[1..])
  }

  /** A property holding `undefined` is not among the defined ones. */
  lemma UndefinedIsNotDefined(props: Props, name: string)
    requires DistinctKeys(props) && Get(props, name) == Undefined
    ensures name !in Keys(Defined(props))
  {
    var d := Defined(props);
    forall i | 0 <= i < |d| ensures Keys(d)[i] != name {
      assert d[i] in props;
      var k :| 0 <= k < |props| && props[k] == d[i];
    }
  }

  /** `parts.join(sep)` */
  function Join(parts: seq<string>, sep: string): string {
    if |parts| == 0 then ""
    else if |parts| == 1 then parts[0]
    else parts[0] + sep + Join(parts[1..], sep)
  }

  function DigitChar(d: nat): char
    requires d < 10
  {
    "0123456789"[d]
  }

  /** The decimal numeral of a natural number, most significant digit first. */
  function NatToString(n: nat): (r: string)
    ensures |r| >= 1
    ensures forall i :: 0 <= i < |r| ==> '0' <= r[i] <= '9'
    decreases n
  {
    if n < 10 then [DigitChar(n)] else NatToString(n / 10) + [DigitChar(n % 10)]
  }

  /** The value of a string of decimal digits (the reading a SQL engine
      gives a placeholder number). */
  function DigitsValue(s: string): nat
    requires forall i :: 0 <= i < |s| ==> '0' <= s[i] <= '9'
  {
    if s == [] then 0
    else DigitsValue(s[..|s| - 1]) * 10 + (s[|s| - 1] as int - '0' as int)
  }

  /** Reading a rendered numeral gives the number back, so distinct
      numbers render as distinct numerals. */
  lemma {:induction false} NatToStringRoundTrip(n: nat)
    ensures DigitsValue(NatToString(n)) == n
    decreases n
  {
    if n >= 10 {
      NatToStringRoundTrip(n / 10);
      var s := NatToString(n);
      assert s[..|s| - 1] == NatToString(n / 10);
    }
  }

  lemma NatToStringInjective(m: nat, n: nat)
    requires NatToString(m) == NatToString(n)
    ensures m == n
  {
    NatToStringRoundTrip(m);
    NatToStringRoundTrip(n);
  }

  function IntToString(n: int): string {
    if n < 0 then "-" + NatToString(-n) else NatToString(n)
  }

  /** `String(v)`, which is what `${v}` inserts into a template literal.
      Array elements that are `null` or `undefined` render as empty. */
  function TemplateString(v: JsValue): string {
    match v
    case Undefined => "undefined"
    case Null => "null"
    case Bool(b) => if b then "true" else "false"
    case Num(n) => IntToString(n)
    case Str(s) => s
    case Arr(items) =>
      Join(seq(|items|, i requires 0 <= i < |items| =>
                 if items[i].Undefined? || items[i].Null? then "" else TemplateString(items[i])), ",")
    case Obj(_) => "[object Object]"
  }

  /** Lower-case hexadecimal digit. */
  function HexDigit(d: nat): char
    requires d < 16
  {
    "0123456789abcdef"[d]
  }

  /** How `JSON.stringify` writes one character inside a string literal. */
  function EscapeChar(c: char): string {
    if c == '"' then "\\\""
    else if c == '\\' then "\\\\"
    else if c as int == 8 then "\\b"
    else if c as int == 12 then "\\f"
    else if c == '\n' then "\\n"
    else if c == '\r' then "\\r"
    else if c == '\t' then "\\t"
    else if c as int < 32 then "\\u00" + [HexDigit(c as int / 16), HexDigit(c as int % 16)]
    else [c]
  }

  function Escape(s: string): string {
    if s == [] then "" else EscapeChar(s[0]) + Escape(s[1..])
  }

  /** A JSON string literal. */
  function Quote(s: string): string {
    "\"" + Escape(s) + "\""
  }

  /** `JSON.stringify(v)`. Object properties whose value is `undefined` are
      omitted and array elements that are `undefined` are written `null`;
      `Stringify(Undefined)` is therefore "null" (at the top level
      `JSON.stringify` returns `undefined`, which the layer never does:
      it only stringifies objects). */
  function Stringify(v: JsValue): string
    decreases v, 1, 0
  {
    match v
    case Undefined => "null"
    case Null => "null"
    case Bool(b) => if b then "true" else "false"
    case Num(n) => IntToString(n)
    case Str(s) => Quote(s)
    case Arr(items) => "[" + Join(seq(|items|, i requires 0 <= i < |items| => Stringify(items[i])), ",") + "]"
    case Obj(props) => "{" + Join(Members(v, props), ",") + "}"
  }

  /** The `"key":value` members of an object's JSON text; `parent` is the
      object the properties come from and only serves termination. */
  function Members(ghost parent: JsValue, props: Props): seq<string>
    requires parent.Obj? && forall p :: p in props ==> p in parent.props
    decreases parent, 0, |props|
  {
    if props == [] then []
    else
      assert props[0] in parent.props;
      (if props[0].1.Undefined? then [] else [Quote(props[0].0) + ":" + Stringify(props[0].1)])
      + Members(parent, props[1..])
  }

  /** `JSON.stringify` does not see properties whose value is `undefined`:
      an object and the same object without them stringify alike. */
  lemma StringifyIgnoresUndefined(props: Props)
    ensures Stringify(Obj(props)) == Stringify(Obj(Defined(props)))
  {
    MembersIgnoreUndefined(Obj(props), Obj(Defined(props)), props);
  }

  lemma {:induction false} MembersIgnoreUndefined(parent: JsValue, parent': JsValue, props: Props)
    requires parent.Obj? && forall p :: p in props ==> p in parent.props
    requires parent'.Obj? && forall p :: p in Defined(props) ==> p in parent'.props
    ensures Members(parent, props) == Members(parent', Defined(props))
    decreases props
  {
    if props != [] {
      MembersIgnoreUndefined(parent, parent', props[1..]);
      if props[0].1 != Undefined {
        assert Defined(props) == [props[0]] + Defined(props[1..]);
        assert Defined(props)[1..] == Defined(props[1..]);
      }
    }
  }

  /** ASCII `toLowerCase` on one character. */
  function LowerChar(c: char): char {
    if 'A' <= c <= 'Z' then (c as int + 32) as char else c
  }

  /** `s.toLowerCase()` for ASCII letters. */
  function Lower(s: string): (r: string)
    ensures |r| == |s|
    ensures forall i :: 0 <= i < |s| ==> r[i] == LowerChar(s[i])
  {
    seq(|s|, i requires 0 <= i < |s| => LowerChar(s[i]))
  }
}
