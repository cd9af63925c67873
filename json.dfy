/**
 * JSON-like values as JavaScript code sees them: `undefined` and `null` are
 * distinct, numbers are integers, and an object is the ordered list of its
 * entries (the keys of one JavaScript object are distinct, so looking a key up
 * finds at most one entry).
 */
module Json {

  datatype Value =
    | JUndefined
    | JNull
    | JBool(b: bool)
    | JNum(n: int)
    | JStr(s: string)
    | JArr(items: seq<Value>)
    | JObj(fields: seq<(string, Value)>)

  /** `v === undefined || v === null`, the values `??` and `?.` skip. */
  predicate Nullish(v: Value) {
    v.JUndefined? || v.JNull?
  }

  /** JavaScript truthiness; falsy are undefined, null, false, 0 and ''. */
  predicate Truthy(v: Value) {
    match v
    case JUndefined => false
    case JNull => false
    case JBool(b) => b
    case JNum(n) => n != 0
    case JStr(s) => s != ""
    case _ => true
  }

  /** `a ?? b` */
  function Coalesce(a: Value, b: Value): (r: Value)
    ensures !Nullish(a) ==> r == a
    ensures Nullish(a) ==> r == b
  {
    if Nullish(a) then b else a
  }

  /** The value of the first entry with this key, `undefined` when there is none. */
  function Lookup(fields: seq<(string, Value)>, key: string): (r: Value)
    ensures r != JUndefined ==> exists i :: 0 <= i < |fields| && fields[i] == (key, r)
    ensures (forall i :: 0 <= i < |fields| ==> fields[i].0 != key) ==> r == JUndefined
  {
    if |fields| == 0 then JUndefined
    else if fields[0].0 == key then fields[0].1
    else Lookup(fields[1..], key)
  }

  /** `v?.key`: only an object has properties here; on anything else the access gives `undefined`. */
  function Get(v: Value, key: string): Value {
    if v.JObj? then Lookup(v.fields, key) else JUndefined
  }

  /** `v[0]` on an array (`undefined` when it is empty). */
  function First(v: Value): Value
    requires v.JArr?
  {
    if |v.items| == 0 then JUndefined else v.items[0]
  }

  /** `Array.isArray(v) ? v[0] : v`, the normalisation both artifact-id extractors apply. */
  function FirstIfArray(v: Value): Value {
    if v.JArr? then First(v) else v
  }

  /** `typeof v === 'object'` for a non-null value (arrays included). */
  predicate IsObjectLike(v: Value) {
    v.JArr? || v.JObj?
  }
}
