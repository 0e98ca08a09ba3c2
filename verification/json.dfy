/**
 * JavaScript values as `JSON.parse` produces them, and the handful of language
 * operations the registry code applies to them: property reads, optional
 * chaining, `||` defaulting by falsiness, object spread, `===` and `String(v)`.
 */
module Json {
  import opened Wrappers
  import Text

  /** A parsed JSON value. Numbers are modelled as integers. */
  datatype Value =
    | Null
    | Bool(b: bool)
    | Num(n: int)
    | Str(s: string)
    | Arr(items: seq<Value>)
    | Obj(fields: map<string, Value>)

  /** A plain object: its own enumerable properties. */
  type Record = map<string, Value>

  /** JavaScript truthiness of a defined value: null, false, 0 and "" are falsy. */
  predicate Truthy(v: Value) {
    match v
    case Null => false
    case Bool(b) => b
    case Num(n) => n != 0
    case Str(s) => s != ""
    case _ => true
  }

  /** Truthiness of a possibly-undefined value. */
  predicate Present(o: Option<Value>) {
    o.Some? && Truthy(o.value)
  }

  /** No element is null: reading a property of each one cannot throw. */
  predicate NoNull(vs: seq<Value>) {
    forall i :: 0 <= i < |vs| ==> !vs[i].Null?
  }

  /** A non-empty list has no null exactly when its head is not null and its tail has none. */
  lemma NoNullCons(vs: seq<Value>)
    requires vs != []
    ensures NoNull(vs) <==> !vs[0].Null? && NoNull(vs[1..])
  {
    if !vs[0].Null? && NoNull(vs[1..]) {
      forall i | 1 <= i < |vs| ensures !vs[i].Null? {
        assert vs[i] == vs[1..][i - 1];
      }
    }
  }

  /** `r.k` on a plain object. */
  function Field(r: Record, k: string): (o: Option<Value>)
    ensures o.Some? <==> k in r
    ensures o.Some? ==> o.value == r[k]
  {
    if k in r then Some(r[k]) else None
  }

  /** `v.k` on a value that is not null: only objects carry the registry's property names. */
  function Prop(v: Value, k: string): Option<Value>
  {
    if v.Obj? then Field(v.fields, k) else None
  }

  /** `o?.k`: undefined when `o` is null or undefined. */
  function Chain(o: Option<Value>, k: string): Option<Value>
  {
    if o.None? || o.value.Null? then None else Prop(o.value, k)
  }

  /** `o || d` */
  function Or(o: Option<Value>, d: Value): (v: Value)
    ensures Present(o) ==> v == o.value
    ensures !Present(o) ==> v == d
  {
    if Present(o) then o.value else d
  }

  /** The properties `{...v}` copies out of `v`. */
  function Spread(v: Value): Record
  {
    if v.Obj? then v.fields else map[]
  }

  /**
   * `a === b`. Objects and arrays compare by reference; every value compared by the
   * registry code comes from a distinct parse, so two of them are never identical.
   */
  predicate StrictEq(a: Option<Value>, b: Option<Value>) {
    match (a, b)
    case (None, None) => true
    case (Some(x), Some(y)) => !x.Arr? && !x.Obj? && x == y
    case _ => false
  }

  lemma StrictEqSymmetric(a: Option<Value>, b: Option<Value>)
    ensures StrictEq(a, b) <==> StrictEq(b, a)
  {
  }

  lemma StrictEqTransitive(a: Option<Value>, b: Option<Value>, c: Option<Value>)
    requires StrictEq(a, b) && StrictEq(b, c)
    ensures StrictEq(a, c)
  {
  }

  /** `String(v)` */
  function Show(v: Value): string
    decreases v, 1
  {
    match v
    case Null => "null"
    case Bool(b) => if b then "true" else "false"
    case Num(n) => Text.IntToString(n)
    case Str(s) => s
    case Arr(items) => ShowItems(items)
    case Obj(_) => "[object Object]"
  }

  /** `items.join(',')`, which prints null elements as empty strings. */
  function ShowItems(items: seq<Value>): string
    decreases items, 0
  {
    if |items| == 0 then ""
    else
      var head := if items[0].Null? then "" else Show(items[0]);
      if |items| == 1 then head else head + "," + ShowItems(items[1..])
  }

  /** `String(o)`, which prints undefined as "undefined". */
  function ShowOpt(o: Option<Value>): (s: string)
    ensures o.None? ==> s == "undefined"
    ensures o.Some? && o.value.Str? ==> s == o.value.s
  {
    if o.Some? then Show(o.value) else "undefined"
  }

  /** `${o || d}` in a template literal, for a string default `d`. */
  function ShowOr(o: Option<Value>, d: string): (s: string)
    ensures !Present(o) ==> s == d
    ensures o.Some? && o.value.Str? && Present(o) ==> s == o.value.s
  {
    if Present(o) then Show(o.value) else d
  }

  /** A string-typed property read the way the TypeScript types promise it: "" when missing. */
  function StrField(r: Record, k: string): (s: string)
    ensures k in r && r[k].Str? ==> s == r[k].s
    ensures s != "" ==> k in r && r[k] == Str(s)
  {
    if k in r && r[k].Str? then r[k].s else ""
  }
}
