/**
 * The dynamically typed values the request bodies carry (parsed JSON plus
 * `undefined`), with the JavaScript operations the validators and services
 * apply to them: truthiness, `typeof ... === 'object'`, property reads, the
 * `in` operator, `Object.entries`/`Object.keys` and conversion to a string.
 */
module JsValues {
  import opened Wrappers
  import opened JsStrings

  /** A JavaScript number: an integer, `NaN` or an infinity (fractions are not modelled). */
  datatype Number = Finite(v: int) | NaN | Infinity(negative: bool)

  /**
   * A JavaScript value. An object is the sequence of its own enumerable
   * properties in enumeration order.
   */
  datatype Value =
    | Undefined
    | Null
    | Bool(b: bool)
    | Num(n: Number)
    | Str(s: string)
    | Arr(items: seq<Value>)
    | Obj(fields: seq<(string, Value)>)

  /** `!!v`. */
  predicate Truthy(v: Value) {
    match v
    case Undefined => false
    case Null => false
    case Bool(b) => b
    case Num(n) => n != Finite(0) && n != NaN
    case Str(s) => s != ""
    case _ => true
  }

  /** `v && typeof v === 'object'`: arrays and plain objects. */
  predicate IsObject(v: Value) {
    v.Arr? || v.Obj?
  }

  /** `v === undefined || v === null || v === ''`, the services' notion of an empty answer. */
  predicate IsEmptyAnswer(v: Value) {
    v == Undefined || v == Null || v == Str("")
  }

  /** The first own property called `key`, or `undefined`. */
  function FieldLookup(fields: seq<(string, Value)>, key: string): Value {
    if |fields| == 0 then Undefined
    else if fields[0].0 == key then fields[0].1
    else FieldLookup(fields[1..], key)
  }

  /**
   * A property read finds the first field with that name: a defined result
   * is the value of such a field, and a name no field has reads `undefined`.
   */
  lemma {:induction false} FieldLookupFinds(fields: seq<(string, Value)>, key: string)
    ensures FieldLookup(fields, key) != Undefined ==>
      exists i :: 0 <= i < |fields| && fields[i] == (key, FieldLookup(fields, key))
    ensures (forall i :: 0 <= i < |fields| ==> fields[i].0 != key) ==> FieldLookup(fields, key) == Undefined
    ensures forall i :: 0 <= i < |fields| && fields[i].0 == key && (forall j :: 0 <= j < i ==> fields[j].0 != key) ==>
      FieldLookup(fields, key) == fields[i].1
  {
    if |fields| > 0 {
      FieldLookupFinds(fields[1..], key);
      if fields[0].0 != key {
        var r := FieldLookup(fields, key);
        if r != Undefined {
          var i :| 0 <= i < |fields[1..]| && fields[1..][i] == (key, r);
          assert fields[i + 1] == (key, r);
        }
        forall i | 0 <= i < |fields| && fields[i].0 == key && (forall j :: 0 <= j < i ==> fields[j].0 != key)
          ensures FieldLookup(fields, key) == fields[i].1
        {
          assert fields[1..][i - 1] == fields[i];
        }
      }
    }
  }

  /** The array index that `key` names among the first `n`, if any. */
  function IndexOfKey(key: string, n: nat): (r: Option<nat>)
    ensures r.Some? ==> r.value < n && NatToString(r.value) == key
    ensures r.None? ==> forall i :: 0 <= i < n ==> NatToString(i) != key
  {
    if n == 0 then None
    else if NatToString(n - 1) == key then Some(n - 1)
    else IndexOfKey(key, n - 1)
  }

  /**
   * `v[key]` for a value that is not `undefined` or `null` (reading a property
   * of those throws, which callers model themselves). Properties inherited from
   * a prototype (methods such as `toString`) are not modelled.
   */
  function Prop(v: Value, key: string): Value {
    match v
    case Obj(fields) => FieldLookup(fields, key)
    case Arr(items) =>
      if key == "length" then Num(Finite(|items|))
      else if !IsDigits(key) then Undefined
      else (match IndexOfKey(key, |items|) case Some(i) => items[i] case None => Undefined)
    case Str(s) =>
      if key == "length" then Num(Finite(Utf16Length(s)))
      else if !IsDigits(key) then Undefined
      else (match IndexOfKey(key, |s|) case Some(i) => Str([s[i]]) case None => Undefined)
    case _ => Undefined
  }

  /** `Object.entries(v)`: the own enumerable properties with their values. */
  function OwnEntries(v: Value): (es: seq<(string, Value)>)
    ensures v.Obj? ==> es == v.fields
  {
    match v
    case Obj(fields) => fields
    case Arr(items) => seq(|items|, i requires 0 <= i < |items| => (NatToString(i), items[i]))
    case Str(s) => seq(|s|, i requires 0 <= i < |s| => (NatToString(i), Str([s[i]])))
    case _ => []
  }

  /** `Object.keys(v)`. */
  function OwnKeys(v: Value): (ks: seq<string>)
    ensures |ks| == |OwnEntries(v)|
    ensures forall i :: 0 <= i < |ks| ==> ks[i] == OwnEntries(v)[i].0
  {
    var es := OwnEntries(v);
    seq(|es|, i requires 0 <= i < |es| => es[i].0)
  }

  /** The property names every object inherits from `Object.prototype`. */
  const ObjectPrototypeNames: set<string> := {
    "constructor", "hasOwnProperty", "isPrototypeOf", "propertyIsEnumerable",
    "toLocaleString", "toString", "valueOf", "__proto__",
    "__defineGetter__", "__defineSetter__", "__lookupGetter__", "__lookupSetter__"
  }

  /**
   * `key in v` for an object `v`: an own property, an array's `length`, or a
   * name inherited from `Object.prototype`. Names that arrays inherit from
   * `Array.prototype` are not modelled.
   */
  predicate HasProperty(v: Value, key: string)
    requires IsObject(v)
  {
    key in OwnKeys(v) || (v.Arr? && key == "length") || key in ObjectPrototypeNames
  }

  function NumberToString(n: Number): string {
    match n
    case Finite(i) => IntToString(i)
    case NaN => "NaN"
    case Infinity(negative) => if negative then "-Infinity" else "Infinity"
  }

  /**
   * `String(v)`: what a template literal or `RegExp.prototype.test` sees. An
   * array renders as its elements joined by commas, `undefined` and `null`
   * elements as empty strings.
   */
  function ToJsString(v: Value): string {
    match v
    case Undefined => "undefined"
    case Null => "null"
    case Bool(b) => if b then "true" else "false"
    case Num(n) => NumberToString(n)
    case Str(s) => s
    case Arr(items) =>
      Join(seq(|items|, i requires 0 <= i < |items| =>
             if items[i].Undefined? || items[i].Null? then "" else ToJsString(items[i])), ',')
    case Obj(_) => "[object Object]"
  }

  /**
   * What a `String` path of a Mongoose schema makes of `v`, on a write and in
   * a query filter alike: numbers and booleans become their `String(v)`,
   * while strings, `undefined` and `null` stay as they are. Arrays and
   * objects, which the cast refuses or reads as query operators, are kept as
   * they are here.
   */
  function SchemaString(v: Value): (r: Value)
    ensures v.Num? || v.Bool? ==> r == Str(ToJsString(v))
    ensures !v.Num? && !v.Bool? ==> r == v
  {
    match v
    case Num(n) => Str(NumberToString(n))
    case Bool(b) => Str(if b then "true" else "false")
    case _ => v
  }
}
