/** The JavaScript values a handler reads out of a parsed JSON request body,
    and the few JavaScript operations the handlers apply to them. */
module JsValues {

  /** A value of the request body. `Undefined` is a key the body does not
      have; everything else is what a JSON parser produces. `Obj` lists the
      object's own properties in JavaScript's enumeration order, each key once. */
  datatype JsValue =
    | Undefined
    | Null
    | Bool(b: bool)
    | Num(n: real)
    | Str(s: string)
    | Arr(items: seq<JsValue>)
    | Obj(props: seq<(string, JsValue)>)

  /** JavaScript truthiness: `undefined`, `null`, `false`, `0` and `""` are
      falsy; every array and every object is truthy. */
  predicate Truthy(v: JsValue) {
    match v
    case Undefined => false
    case Null => false
    case Bool(b) => b
    case Num(n) => n != 0.0
    case Str(s) => s != ""
    case Arr(_) => true
    case Obj(_) => true
  }

  /** `a || b`: the left operand when it is truthy, the right one otherwise. */
  function Or(a: JsValue, b: JsValue): (r: JsValue)
    ensures Truthy(a) ==> r == a
    ensures !Truthy(a) ==> r == b
    ensures Truthy(r) <==> Truthy(a) || Truthy(b)
  {
    if Truthy(a) then a else b
  }

  /** The value of own property `key`, `undefined` when there is none. */
  function Lookup(props: seq<(string, JsValue)>, key: string): (r: JsValue)
    ensures r != Undefined ==> exists i :: 0 <= i < |props| && props[i] == (key, r)
  {
    if props == [] then Undefined
    else if props[0].0 == key then props[0].1
    else Lookup(props[1..], key)
  }

  /** `v.length`; on `null` and `undefined` JavaScript throws instead. */
  function LengthOf(v: JsValue): (r: JsValue)
    requires !v.Undefined? && !v.Null?
  {
    match v
    case Str(s) => Num(|s| as real)
    case Arr(items) => Num(|items| as real)
    case Obj(props) => Lookup(props, "length")
    case _ => Undefined
  }

  /** The decimal spelling of an array index, as `Object.keys` gives it. */
  function DecimalString(n: nat): (r: string)
    ensures r != [] && forall i | 0 <= i < |r| :: '0' <= r[i] <= '9'
  {
    var digit := ['0' + (n % 10) as char];
    if n < 10 then digit else DecimalString(n / 10) + digit
  }

  /** The one-character strings of `s`, in order. */
  function Characters(s: string): (r: seq<JsValue>)
    ensures |r| == |s| && forall i | 0 <= i < |s| :: r[i] == Str([s[i]])
  {
    if s == [] then [] else [Str([s[0]])] + Characters(s[1..])
  }

  /** `items` paired with their indices, counting from `start`. */
  function Indexed(items: seq<JsValue>, start: nat): (r: seq<(string, JsValue)>)
    ensures |r| == |items|
    ensures forall i | 0 <= i < |items| :: r[i] == (DecimalString(start + i), items[i])
  {
    if items == [] then [] else [(DecimalString(start), items[0])] + Indexed(items[1..], start + 1)
  }

  /** `Object.entries(v)`: an object's own properties, an array's elements
      or a string's characters under their index, nothing for a number or a
      boolean; on `null` and `undefined` JavaScript throws instead. */
  function OwnEntries(v: JsValue): (r: seq<(string, JsValue)>)
    requires !v.Undefined? && !v.Null?
    ensures v.Obj? ==> r == v.props
    ensures v.Arr? ==> |r| == |v.items| && forall i | 0 <= i < |r| :: r[i] == (DecimalString(i), v.items[i])
    ensures v.Str? ==> |r| == |v.s| && forall i | 0 <= i < |r| :: r[i] == (DecimalString(i), Str([v.s[i]]))
    ensures v.Num? || v.Bool? ==> r == []
  {
    match v
    case Obj(props) => props
    case Arr(items) => Indexed(items, 0)
    case Str(s) => Indexed(Characters(s), 0)
    case _ => []
  }

  function Keys(entries: seq<(string, JsValue)>): (r: seq<string>)
    ensures |r| == |entries| && forall i | 0 <= i < |r| :: r[i] == entries[i].0
  {
    if entries == [] then [] else [entries[0].0] + Keys(entries[1..])
  }

  /** `Object.keys(v)`: the keys of `Object.entries(v)`, in the same order. */
  function OwnKeys(v: JsValue): (r: seq<string>)
    requires !v.Undefined? && !v.Null?
    ensures |r| == |OwnEntries(v)| && forall i | 0 <= i < |r| :: r[i] == OwnEntries(v)[i].0
  {
    Keys(OwnEntries(v))
  }
}
