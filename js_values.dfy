/** The parts of JavaScript's value semantics that the dashboard's
    expressions depend on: truthiness (for `||`, `!` and `&&`), the `>= 0`
    comparison on a numeric JSON field, and reading a property of a plain
    object literal. */
module Js {
  import opened Wrappers

  /** A JavaScript value as it reaches a display helper. */
  datatype Value = Undefined | Null | Bool(b: bool) | Num(n: real) | Str(s: string)

  /** JavaScript's ToBoolean: exactly undefined, null, false, 0 and "" are falsy.
      NaN is not modelled (JSON cannot carry it). */
  predicate Truthy(v: Value): (b: bool)
    ensures !b <==> v == Undefined || v == Null || v == Bool(false) || v == Num(0.0) || v == Str("")
  {
    match v
    case Undefined => false
    case Null => false
    case Bool(b) => b
    case Num(n) => n != 0.0
    case Str(s) => s != ""
  }

  /** A numeric JSON field: left out of the record, present as `null`, or a number.
      The two missing forms differ under relational comparison. */
  datatype Numeric = Absent | NullNumber | Finite(value: real)

  /** ToNumber of a numeric field: `undefined` converts to NaN (None), `null` to 0. */
  function ToNumber(x: Numeric): Option<real> {
    match x
    case Absent => None
    case NullNumber => Some(0.0)
    case Finite(v) => Some(v)
  }

  /** `x >= 0`: `undefined` compares false, `null` compares like 0. */
  predicate AtLeastZero(x: Numeric): (b: bool)
    ensures b <==> ToNumber(x).Some? && ToNumber(x).value >= 0.0
  {
    match x
    case Absent => false
    case NullNumber => true
    case Finite(v) => v >= 0.0
  }

  /** The names a plain object literal inherits from Object.prototype: reading
      any of them on `{ ... }` yields a function or an object, never undefined. */
  const ObjectPrototypeMembers: set<string> :=
    {"constructor", "hasOwnProperty", "isPrototypeOf", "propertyIsEnumerable",
     "toLocaleString", "toString", "valueOf", "__proto__",
     "__defineGetter__", "__defineSetter__", "__lookupGetter__", "__lookupSetter__"}

  /** What `table[key]` yields on an object literal whose own properties are `table`. */
  datatype Property = Own(text: string) | Inherited(name: string) | Missing

  /** `table[key]`; a missing key (undefined) is looked up as the string "undefined". */
  function ReadProperty(table: map<string, string>, key: string): (p: Property)
    ensures p.Own? <==> key in table
    ensures p.Inherited? <==> key !in table && key in ObjectPrototypeMembers
    ensures p.Own? ==> p.text == table[key]
  {
    if key in table then Own(table[key])
    else if key in ObjectPrototypeMembers then Inherited(key)
    else Missing
  }

  /** ToBoolean of a property value: inherited members are functions or objects. */
  predicate PropertyTruthy(p: Property): (b: bool)
    ensures !b <==> p == Missing || p == Own("")
  {
    match p
    case Own(text) => text != ""
    case Inherited(_) => true
    case Missing => false
  }
}
