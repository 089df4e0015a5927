/** JavaScript values as the form hook stores them, and the few language
    rules the hook relies on: truthiness, `typeof ... === 'object'`, strict
    equality, string conversion, lower-casing and plain objects whose own
    keys keep their insertion order. */
module Js {

  datatype Option<T> = None | Some(value: T)

  /** A field value. `Files` is an array of data URLs and `Obj` a plain
      object; both are references, and `ref` is their identity. */
  datatype Value =
    | Undefined
    | Null
    | Bool(b: bool)
    | Str(s: string)
    | Files(ref: nat, urls: seq<string>)
    | Obj(ref: nat, fields: map<string, Value>)

  /** `!v` holds. */
  predicate Falsy(v: Value) {
    match v
    case Undefined => true
    case Null => true
    case Bool(b) => !b
    case Str(s) => s == ""
    case _ => false
  }

  predicate Truthy(v: Value) {
    !Falsy(v)
  }

  /** `typeof v === 'object'` (true of null as well). */
  predicate IsObject(v: Value) {
    v.Null? || v.Files? || v.Obj?
  }

  /** lodash `isEmpty` on an object-typed value: no own entries. */
  predicate HasNoEntries(v: Value)
    requires IsObject(v)
  {
    match v
    case Null => true
    case Files(_, urls) => urls == []
    case Obj(_, fields) => fields == map[]
  }

  /** `(typeof v === 'object' && isEmpty(v)) || !v`: the "empty" test of a
      required field. */
  predicate RequiredEmpty(v: Value) {
    (IsObject(v) && HasNoEntries(v)) || Falsy(v)
  }

  /** `a === b`: primitives by value, arrays and objects by identity. */
  predicate StrictEquals(a: Value, b: Value) {
    match a
    case Files(r, _) => b.Files? && b.ref == r
    case Obj(r, _) => b.Obj? && b.ref == r
    case _ => a == b
  }

  /** `String(v)`, the conversion `RegExp.prototype.test` applies. */
  function ToStr(v: Value): string {
    match v
    case Undefined => "undefined"
    case Null => "null"
    case Bool(b) => if b then "true" else "false"
    case Str(s) => s
    case Files(_, urls) => Join(urls)
    case Obj(_, _) => "[object Object]"
  }

  /** `parts.join(',')` */
  function Join(parts: seq<string>): string
    decreases |parts|
  {
    if |parts| == 0 then ""
    else if |parts| == 1 then parts[0]
    else parts[0] + "," + Join(parts[1..])
  }

  function LowerChar(c: char): char {
    if 'A' <= c <= 'Z' then (c as int + 32) as char else c
  }

  /** `s.toLowerCase()` on the ASCII letters. */
  function Lower(s: string): string {
    seq(|s|, i requires 0 <= i < |s| => LowerChar(s[i]))
  }

  /** Lower-casing a lower-cased string changes nothing. */
  lemma LowerIdempotent(s: string)
    ensures Lower(Lower(s)) == Lower(s)
  {
    assert forall i | 0 <= i < |s| :: LowerChar(LowerChar(s[i])) == LowerChar(s[i]);
  }

  /** Lower-casing neither creates nor removes an '@'. */
  lemma LowerKeepsAt(s: string)
    ensures '@' in Lower(s) <==> '@' in s
  {
    if '@' in Lower(s) {
      var i :| 0 <= i < |s| && Lower(s)[i] == '@';
      assert s[i] == '@';
    }
    if '@' in s {
      var i :| 0 <= i < |s| && s[i] == '@';
      assert Lower(s)[i] == '@';
    }
  }

  /** `obj[k]` on a plain object: `undefined` for a missing key. */
  function Get(m: map<string, Value>, k: string): Value {
    if k in m then m[k] else Undefined
  }

  /** A plain object: its own keys in enumeration order and its entries. */
  datatype Record<T> = Record(keys: seq<string>, at: map<string, T>) {

    ghost predicate Valid() {
      && (forall k :: k in at <==> k in keys)
      && (forall i, j | 0 <= i < j < |keys| :: keys[i] != keys[j])
    }

    /** `{ ...this, [k]: v }`: an existing key keeps its place, a new one
        goes last. */
    function With(k: string, v: T): (r: Record<T>)
      requires Valid()
      ensures r.Valid()
      ensures r.at == at[k := v]
      ensures k in at ==> r.keys == keys
      ensures k !in at ==> r.keys == keys + [k]
    {
      if k in at then Record(keys, at[k := v]) else Record(keys + [k], at[k := v])
    }
  }

  function EmptyRecord<T>(): (r: Record<T>)
    ensures r.Valid() && r.at == map[]
  {
    Record([], map[])
  }
}
