/** The dynamically-typed values that arrive from JSON text, the document
    store and `sessionStorage`, with the three JavaScript judgements the
    ingestion code makes about them: truthiness (`x || d`), `Array.isArray`
    and `typeof x === 'number'`. Numbers are integers; NaN is kept apart
    because it is a falsy number. */
module JsValues {
  import opened Wrappers

  datatype Value =
    | Undefined
    | Null
    | Bool(b: bool)
    | Num(n: int)
    | NaN
    | Str(s: string)
    | Arr(items: seq<Value>)
    | Obj(fields: map<string, Value>)

  /** JavaScript truthiness. */
  predicate Truthy(v: Value) {
    match v
    case Undefined => false
    case Null => false
    case NaN => false
    case Bool(b) => b
    case Num(n) => n != 0
    case Str(s) => s != []
    case Arr(_) => true
    case Obj(_) => true
  }

  /** `a || b`. */
  function Or(a: Value, b: Value): Value {
    if Truthy(a) then a else b
  }

  lemma OrDefaults(a: Value, b: Value)
    ensures Truthy(b) ==> Truthy(Or(a, b))
    ensures Truthy(a) ==> Or(a, b) == a
    ensures !Truthy(a) ==> Or(a, b) == b
  {
  }

  /** `typeof v === 'number'`. */
  predicate IsNumber(v: Value) {
    v.Num? || v.NaN?
  }

  /** `typeof v === 'object'` (which includes `null` and arrays). */
  predicate IsObjectType(v: Value) {
    v.Obj? || v.Arr? || v.Null?
  }

  /** A property of an object record; an absent key reads as `undefined`. */
  function Field(fields: map<string, Value>, key: string): Value {
    if key in fields then fields[key] else Undefined
  }

  /** `v.key`: `None` is the TypeError thrown when `v` is null or undefined.
      Any other non-object reads the named fields the application uses as
      `undefined`. */
  function Get(v: Value, key: string): Option<Value>
  {
    match v
    case Undefined => None
    case Null => None
    case Obj(fields) => Some(Field(fields, key))
    case _ => Some(Undefined)
  }
}
